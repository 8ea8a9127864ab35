/** The post-text normaliser of the feature builder: lower-case the text, delete every
    character that is neither a word character nor whitespace, then turn newlines into
    spaces. Character classes follow Python's `re` on `str` patterns, restricted to
    ASCII; every non-ASCII character is treated as a word character and left as it is. */
module TextNormalizer {
  import opened Common

  /** Python's `\s` on ASCII: tab, newline, vertical tab, form feed, carriage return,
      the four information separators 0x1C-0x1F, and space. */
  predicate IsSpace(c: char)
  {
    (9 <= c as int <= 13) || (28 <= c as int <= 31) || c == ' '
  }

  /** Python's `\w`: ASCII letters, digits and underscore, plus (in this model) any
      character outside ASCII. */
  predicate IsWordChar(c: char)
  {
    ('a' <= c <= 'z') || ('A' <= c <= 'Z') || ('0' <= c <= '9') || c == '_' || c as int > 127
  }

  predicate IsUpper(c: char)
  {
    'A' <= c <= 'Z'
  }

  /** `str.lower()` on one character (ASCII upper-case letters only). */
  function LowerChar(c: char): (d: char)
    ensures !IsUpper(d)
    ensures IsUpper(c) ==> d as int == c as int + 32
    ensures !IsUpper(c) ==> d == c
  {
    if IsUpper(c) then (c as int + 32) as char else c
  }

  /** `text.lower()`. */
  function Lower(s: string): (r: string)
    ensures |r| == |s|
    ensures forall i :: 0 <= i < |s| ==> r[i] == LowerChar(s[i])
  {
    seq(|s|, i requires 0 <= i < |s| => LowerChar(s[i]))
  }

  predicate Kept(c: char)
  {
    IsWordChar(c) || IsSpace(c)
  }

  /** `re.sub(r'[^\w\s]', '', text)`: deletes every character that is neither a word nor a
      whitespace character. */
  function StripPunctuation(s: string): (r: string)
    ensures forall c :: c in r <==> c in s && Kept(c)
    ensures |r| <= |s|
  {
    if s == [] then []
    else
      var rest := StripPunctuation(s[1..]);
      assert forall c :: c in s ==> c == s[0] || c in s[1..];
      if Kept(s[0]) then [s[0]] + rest else rest
  }

  /** The deletion keeps every word and whitespace character, as often as it occurs and in
      its order, and nothing else. */
  lemma {:induction false} StripPunctuationKeepsKept(s: string)
    ensures IsSubsequence(StripPunctuation(s), s)
    ensures forall c :: multiset(StripPunctuation(s))[c] == if Kept(c) then multiset(s)[c] else 0
  {
    if s != [] {
      var rest := StripPunctuation(s[1..]);
      StripPunctuationKeepsKept(s[1..]);
      assert s == [s[0]] + s[1..];
      if Kept(s[0]) {
        assert ([s[0]] + rest)[1..] == rest;
      } else {
        SubsequenceOfTail(rest, s);
      }
    }
  }

  /** `re.sub('\n', ' ', text)`. */
  function ReplaceNewlines(s: string): (r: string)
    ensures |r| == |s|
    ensures forall i :: 0 <= i < |s| ==> r[i] == (if s[i] == '\n' then ' ' else s[i])
  {
    seq(|s|, i requires 0 <= i < |s| => if s[i] == '\n' then ' ' else s[i])
  }

  /** `_process_text`. */
  function ProcessText(text: string): (r: string)
    ensures forall c :: c in r ==> !IsUpper(c)
    ensures forall c :: c in r ==> Kept(c)
    ensures '\n' !in r
    ensures |r| <= |text|
  {
    var lowered := Lower(text);
    var kept := StripPunctuation(lowered);
    assert forall c :: c in lowered ==> !IsUpper(c);
    ReplaceNewlines(kept)
  }

  /** The normalised text is the lower-cased text with newlines turned into spaces, keeping
      every word and whitespace character, as often as it occurs and in its order, and
      nothing else. */
  lemma ProcessTextKeepsText(text: string)
    ensures var mapped := ReplaceNewlines(Lower(text));
      && IsSubsequence(ProcessText(text), mapped)
      && forall c :: multiset(ProcessText(text))[c] == if Kept(c) then multiset(mapped)[c] else 0
  {
    ReplaceNewlinesAfterStrip(Lower(text));
    StripPunctuationKeepsKept(ReplaceNewlines(Lower(text)));
  }

  function NewlineToSpace(c: char): char
  {
    if c == '\n' then ' ' else c
  }

  lemma ReplaceNewlinesCons(s: string)
    requires s != []
    ensures ReplaceNewlines(s) == [NewlineToSpace(s[0])] + ReplaceNewlines(s[1..])
  {
  }

  lemma StripPunctuationCons(s: string)
    requires s != []
    ensures StripPunctuation(s) == (if Kept(s[0]) then [s[0]] else []) + StripPunctuation(s[1..])
  {
  }

  /** Turning newlines into spaces commutes with deleting punctuation, since both are
      whitespace and every other character keeps its class. */
  lemma {:induction false} ReplaceNewlinesAfterStrip(s: string)
    ensures ReplaceNewlines(StripPunctuation(s)) == StripPunctuation(ReplaceNewlines(s))
  {
    if s != [] {
      var c := NewlineToSpace(s[0]);
      var t := ReplaceNewlines(s);
      var head: string := if Kept(s[0]) then [s[0]] else [];
      var head': string := if Kept(c) then [c] else [];
      var rest := StripPunctuation(s[1..]);
      ReplaceNewlinesCons(s);
      assert t[0] == c && t[1..] == ReplaceNewlines(s[1..]);
      ReplaceNewlinesAfterStrip(s[1..]);
      StripPunctuationCons(s);
      StripPunctuationCons(t);
      ReplaceNewlinesConcat(head, rest);
      assert ReplaceNewlines(head) == head';
    }
  }

  lemma ReplaceNewlinesConcat(s: string, t: string)
    ensures ReplaceNewlines(s + t) == ReplaceNewlines(s) + ReplaceNewlines(t)
  {
  }

  /** Every character of `s` is kept by `StripPunctuation` when all are word or space characters. */
  lemma {:induction false} StripPunctuationKeepsClean(s: string)
    requires forall c :: c in s ==> Kept(c)
    ensures StripPunctuation(s) == s
  {
    if s != [] {
      assert s[0] in s;
      assert forall c :: c in s[1..] ==> c in s;
      StripPunctuationKeepsClean(s[1..]);
      assert s == [s[0]] + s[1..];
    }
  }

  /** Normalising a normalised text changes nothing. */
  lemma ProcessTextIdempotent(text: string)
    ensures ProcessText(ProcessText(text)) == ProcessText(text)
  {
    var once := ProcessText(text);
    var lowered := Lower(once);
    assert lowered == once;
    StripPunctuationKeepsClean(lowered);
    assert ReplaceNewlines(lowered) == once;
  }
}
