/**
 * The pieces of Python's `str` the scraper relies on: `strip()`, `split()`,
 * `sep.join(...)`, `lower()`, `upper()`, `in` and `endswith`, over an ASCII
 * approximation of Python's whitespace and case mapping.
 */
module Strings {

  /** Python's whitespace, restricted to ASCII: space, \t \n \v \f \r and the separators \x1c-\x1f. */
  predicate IsSpace(c: char) {
    c == ' ' || ('\t' <= c <= '\r') || ('\U{1C}' <= c <= '\U{1F}')
  }

  predicate NoSpace(s: string) {
    forall i :: 0 <= i < |s| ==> !IsSpace(s[i])
  }

  predicate AllSpace(s: string) {
    forall i :: 0 <= i < |s| ==> IsSpace(s[i])
  }

  /** Neither end is whitespace: the shape of every result of `strip()`. */
  predicate Trimmed(s: string) {
    s == [] || (!IsSpace(s[0]) && !IsSpace(s[|s| - 1]))
  }

  /** `s.lstrip()`: the suffix left after dropping leading whitespace. */
  function TrimLeft(s: string): (r: string)
    ensures |r| <= |s| && r == s[|s| - |r|..]
    ensures forall i :: 0 <= i < |s| - |r| ==> IsSpace(s[i])
    ensures r == [] || !IsSpace(r[0])
  {
    if s != [] && IsSpace(s[0]) then
      var r := TrimLeft(s[1..]);
      assert forall i :: 1 <= i < |s| ==> s[i] == s[1..][i - 1];
      r
    else s
  }

  /** `s.rstrip()`: the prefix left after dropping trailing whitespace. */
  function TrimRight(s: string): (r: string)
    ensures |r| <= |s| && r == s[..|r|]
    ensures forall i :: |r| <= i < |s| ==> IsSpace(s[i])
    ensures r == [] || !IsSpace(r[|r| - 1])
  {
    if s != [] && IsSpace(s[|s| - 1]) then TrimRight(s[..|s| - 1]) else s
  }

  /** `s.strip()`: the middle part of `s`, with only whitespace cut off around it. */
  function Strip(s: string): (r: string)
    ensures |r| <= |s| && Trimmed(r)
  {
    TrimRight(TrimLeft(s))
  }

  /**
   * `strip()` keeps one slice of `s`, starting after its leading whitespace,
   * and everything it cuts off at either end is whitespace.
   */
  lemma {:induction false} StripIsSlice(s: string)
    ensures var r, i := Strip(s), |s| - |TrimLeft(s)|;
            && i + |r| <= |s|
            && (forall k :: 0 <= k < |r| ==> r[k] == s[i + k])
            && (forall k :: 0 <= k < i ==> IsSpace(s[k]))
            && (forall k :: i + |r| <= k < |s| ==> IsSpace(s[k]))
  {
    var t := TrimLeft(s);
    var r := TrimRight(t);
    var i := |s| - |t|;
    SliceOfSuffix(s, t, r, i);
    SpaceAfterSlice(s, t, r, i);
  }

  lemma SliceOfSuffix(s: string, t: string, r: string, i: nat)
    requires i <= |s| && t == s[i..] && |r| <= |t| && r == t[..|r|]
    ensures i + |r| <= |s| && forall k :: 0 <= k < |r| ==> r[k] == s[i + k]
  {
  }

  lemma SpaceAfterSlice(s: string, t: string, r: string, i: nat)
    requires i <= |s| && t == s[i..] && |r| <= |t|
    requires forall k :: |r| <= k < |t| ==> IsSpace(t[k])
    ensures forall k :: i + |r| <= k < |s| ==> IsSpace(s[k])
  {
    forall k | i + |r| <= k < |s|
      ensures IsSpace(s[k])
    {
      assert s[k] == t[k - i];
    }
  }

  /** A leading whitespace character is dropped by `lstrip()`. */
  lemma TrimLeftSpace(c: char, s: string)
    requires IsSpace(c)
    ensures TrimLeft([c] + s) == TrimLeft(s)
  {
    assert ([c] + s)[1..] == s;
  }

  lemma StripOfTrimmed(s: string)
    requires Trimmed(s)
    ensures Strip(s) == s
  {
  }

  /** `lstrip()` leaves nothing exactly when the string is all whitespace. */
  lemma TrimLeftEmptyIffBlank(s: string)
    ensures TrimLeft(s) == [] <==> AllSpace(s)
  {
    var t := TrimLeft(s);
    assert t != [] ==> t[0] == s[|s| - |t|];
  }

  lemma StripEmptyIffBlank(s: string)
    ensures Strip(s) == [] <==> AllSpace(s)
  {
    var t := TrimLeft(s);
    TrimLeftEmptyIffBlank(s);
    assert t == [] ==> TrimRight(t) == [];
  }

  function LowerChar(c: char): char {
    if 'A' <= c <= 'Z' then (c as int + 32) as char else c
  }

  function UpperChar(c: char): char {
    if 'a' <= c <= 'z' then (c as int - 32) as char else c
  }

  /** `s.lower()` on ASCII letters. */
  function Lower(s: string): string {
    seq(|s|, i requires 0 <= i < |s| => LowerChar(s[i]))
  }

  /** `s.upper()` on ASCII letters. */
  function Upper(s: string): string {
    seq(|s|, i requires 0 <= i < |s| => UpperChar(s[i]))
  }

  /** Python's `sub in s`. */
  predicate Contains(s: string, sub: string) {
    exists i :: 0 <= i <= |s| - |sub| && OccursAt(s, sub, i)
  }

  predicate OccursAt(s: string, sub: string, i: int)
    requires 0 <= i <= |s| - |sub|
  {
    s[i..i + |sub|] == sub
  }

  /** Python's `s.endswith(suffix)`. */
  predicate EndsWith(s: string, suffix: string) {
    |suffix| <= |s| && s[|s| - |suffix|..] == suffix
  }

  /** The longest prefix of `s` without whitespace. */
  function FirstWord(s: string): (r: string)
    ensures |r| <= |s| && r == s[..|r|] && NoSpace(r)
    ensures |r| == |s| || IsSpace(s[|r|])
  {
    if s == [] || IsSpace(s[0]) then [] else [s[0]] + FirstWord(s[1..])
  }

  /** `s.split()`: the maximal runs of non-whitespace characters, in order. */
  function Split(s: string): (words: seq<string>)
    ensures AreWords(words)
    decreases |s|
  {
    var t := TrimLeft(s);
    if t == [] then []
    else
      var w := FirstWord(t);
      assert w != [];
      var rest := Split(t[|w|..]);
      AreWordsCons(w, rest);
      [w] + rest
  }

  lemma AreWordsCons(w: string, rest: seq<string>)
    requires IsWord(w) && AreWords(rest)
    ensures AreWords([w] + rest)
  {
    forall i | 0 <= i < |[w] + rest|
      ensures IsWord(([w] + rest)[i])
    {
      if i > 0 {
        assert ([w] + rest)[i] == rest[i - 1];
      }
    }
  }

  /** `sep.join(parts)`. */
  function Join(parts: seq<string>, sep: string): string {
    if |parts| == 0 then ""
    else if |parts| == 1 then parts[0]
    else parts[0] + sep + Join(parts[1..], sep)
  }

  /** A word `split()` could produce: non-empty, without whitespace. */
  predicate IsWord(w: string) {
    w != [] && NoSpace(w)
  }

  predicate AreWords(words: seq<string>) {
    forall i :: 0 <= i < |words| ==> IsWord(words[i])
  }

  lemma SplitBlank(s: string)
    ensures Split(s) == [] <==> AllSpace(s)
  {
    TrimLeftEmptyIffBlank(s);
  }

  /** Whitespace in front of the first word does not change it. */
  lemma {:induction false} FirstWordBeforeSpace(a: string, b: string)
    requires b == [] || IsSpace(b[0])
    ensures FirstWord(a + b) == FirstWord(a)
  {
    if a != [] && !IsSpace(a[0]) {
      assert (a + b)[1..] == a[1..] + b;
      FirstWordBeforeSpace(a[1..], b);
    } else if a == [] {
      assert a + b == b;
    }
  }

  lemma FirstWordOfWord(w: string)
    requires NoSpace(w)
    ensures FirstWord(w) == w
  {
    assert w[..|w|] == w;
  }

  lemma SplitAfterSpace(x: string)
    ensures Split(" " + x) == Split(x)
  {
    assert (" " + x)[1..] == x;
    assert TrimLeft(" " + x) == TrimLeft(x);
  }

  /** A word followed by nothing or by whitespace is the first thing `split()` finds. */
  lemma SplitWordThen(w: string, rest: string)
    requires w != [] && NoSpace(w)
    requires rest == [] || IsSpace(rest[0])
    ensures Split(w + rest) == [w] + Split(rest)
  {
    assert TrimLeft(w + rest) == w + rest;
    FirstWordBeforeSpace(w, rest);
    FirstWordOfWord(w);
    assert (w + rest)[|w|..] == rest;
  }

  /** The first part, then the separator and the join of the rest. */
  lemma JoinFront(parts: seq<string>, sep: string)
    requires |parts| > 1
    ensures Join(parts, sep) == parts[0] + (sep + Join(parts[1..], sep))
  {
    var a, b, c := parts[0], sep, Join(parts[1..], sep);
    assert (a + b) + c == a + (b + c);
  }

  lemma SplitJoinStep(words: seq<string>)
    requires |words| > 1 && AreWords(words)
    requires Split(Join(words[1..], " ")) == words[1..]
    ensures Split(Join(words, " ")) == words
  {
    var w, tail := words[0], Join(words[1..], " ");
    var rest := " " + tail;
    JoinFront(words, " ");
    assert IsSpace(rest[0]);
    SplitWordThen(w, rest);
    SplitAfterSpace(tail);
    assert words == [w] + words[1..];
  }

  lemma SplitEmpty()
    ensures Split("") == []
  {
    assert TrimLeft("") == "";
  }

  lemma SplitOneWord(w: string)
    requires IsWord(w)
    ensures Split(w) == [w]
  {
    SplitEmpty();
    SplitWordThen(w, "");
    assert w + "" == w;
  }

  lemma AreWordsTail(words: seq<string>)
    requires words != [] && AreWords(words)
    ensures AreWords(words[1..])
  {
    forall i | 0 <= i < |words| - 1
      ensures IsWord(words[1..][i])
    {
      assert words[1..][i] == words[i + 1];
    }
  }

  lemma SplitJoinNone(words: seq<string>)
    requires words == []
    ensures Split(Join(words, " ")) == words
  {
    SplitEmpty();
  }

  lemma SplitJoinOne(words: seq<string>)
    requires |words| == 1 && IsWord(words[0])
    ensures Split(Join(words, " ")) == words
  {
    SplitOneWord(words[0]);
    assert words == [words[0]];
  }

  /** `gaps[0] + words[0] + gaps[1] + ... + words[n - 1] + gaps[n]`. */
  function Interleave(gaps: seq<string>, words: seq<string>): string
    requires |gaps| == |words| + 1
    decreases |words|
  {
    if words == [] then gaps[0] else gaps[0] + words[0] + Interleave(gaps[1..], words[1..])
  }

  /** Whitespace gaps around `n` words, those between two words not empty. */
  predicate Separating(gaps: seq<string>, n: nat) {
    && |gaps| == n + 1
    && (forall i :: 0 <= i < |gaps| ==> AllSpace(gaps[i]))
    && (forall i :: 0 < i < n ==> gaps[i] != "")
  }

  /** Leading whitespace does not change what `lstrip()` leaves. */
  lemma {:induction false} TrimLeftAfterBlank(g: string, x: string)
    requires AllSpace(g)
    ensures TrimLeft(g + x) == TrimLeft(x)
  {
    if g != [] {
      assert g + x == [g[0]] + (g[1..] + x);
      TrimLeftSpace(g[0], g[1..] + x);
      assert forall i :: 0 <= i < |g[1..]| ==> g[1..][i] == g[i + 1];
      TrimLeftAfterBlank(g[1..], x);
    } else {
      assert g + x == x;
    }
  }

  /** Leading whitespace does not change the words. */
  lemma {:induction false} SplitAfterBlank(g: string, x: string)
    requires AllSpace(g)
    ensures Split(g + x) == Split(x)
  {
    TrimLeftAfterBlank(g, x);
  }

  /** Whitespace, a word, then nothing or whitespace: the word comes first. */
  lemma {:induction false} SplitBlankWord(g: string, w: string, rest: string)
    requires AllSpace(g) && IsWord(w)
    requires rest == [] || IsSpace(rest[0])
    ensures Split(g + w + rest) == [w] + Split(rest)
  {
    SplitWordThen(w, rest);
    AppendAssoc(g, w, rest);
    SplitAfterBlank(g, w + rest);
  }

  /** What follows the first word of an interleaving is empty or starts with whitespace. */
  lemma {:induction false} InterleaveRestStarts(gaps: seq<string>, words: seq<string>)
    requires |words| >= 1 && Separating(gaps, |words|)
    ensures var rest := Interleave(gaps[1..], words[1..]);
            rest == [] || IsSpace(rest[0])
  {
    var rest := Interleave(gaps[1..], words[1..]);
    if |words| == 1 {
      assert rest == gaps[1];
    } else {
      assert rest == gaps[1] + words[1] + Interleave(gaps[2..], words[2..]);
      assert rest[0] == gaps[1][0];
    }
  }

  /** The gaps after the first word still separate the remaining words. */
  lemma {:induction false} SeparatingTail(gaps: seq<string>, n: nat)
    requires n >= 1 && Separating(gaps, n)
    ensures Separating(gaps[1..], n - 1)
  {
    assert forall i :: 0 <= i < |gaps[1..]| ==> gaps[1..][i] == gaps[i + 1];
  }

  /** Any words set between whitespace gaps, with at least one whitespace character between two words, split back into those words. */
  lemma {:induction false} SplitOfInterleave(gaps: seq<string>, words: seq<string>)
    requires AreWords(words) && Separating(gaps, |words|)
    ensures Split(Interleave(gaps, words)) == words
    decreases |words|
  {
    if words == [] {
      SplitBlank(gaps[0]);
    } else {
      SeparatingTail(gaps, |words|);
      AreWordsTail(words);
      SplitOfInterleave(gaps[1..], words[1..]);
      InterleaveRestStarts(gaps, words);
      SplitOfInterleaveStep(gaps, words);
    }
  }

  lemma {:induction false} SplitOfInterleaveStep(gaps: seq<string>, words: seq<string>)
    requires words != [] && |gaps| == |words| + 1 && IsWord(words[0]) && AllSpace(gaps[0])
    requires var rest := Interleave(gaps[1..], words[1..]);
             && (rest == [] || IsSpace(rest[0]))
             && Split(rest) == words[1..]
    ensures Split(Interleave(gaps, words)) == words
  {
    var rest := Interleave(gaps[1..], words[1..]);
    SplitBlankWord(gaps[0], words[0], rest);
    assert words == [words[0]] + words[1..];
  }

  /** The whitespace runs around and between the words `split()` finds. */
  function SplitGaps(s: string): (gaps: seq<string>)
    ensures gaps != []
    decreases |s|
  {
    var t := TrimLeft(s);
    if t == [] then [s]
    else
      var w := FirstWord(t);
      assert w != [];
      [s[..|s| - |t|]] + SplitGaps(t[|w|..])
  }

  /** The first gap is the leading whitespace. */
  lemma {:induction false} SplitGapsHead(s: string)
    ensures SplitGaps(s)[0] == s[..|s| - |TrimLeft(s)|]
  {
    if TrimLeft(s) == [] {
      assert s[..|s|] == s;
    }
  }

  /** After a word, the next gap is empty only at the end of the text. */
  lemma {:induction false} GapAfterWord(rest: string)
    requires rest == [] || IsSpace(rest[0])
    requires Split(rest) != []
    ensures SplitGaps(rest)[0] != ""
  {
    SplitGapsHead(rest);
    var t := TrimLeft(rest);
    SplitBlank(rest);
    assert rest != [];
    assert |t| < |rest|;
  }

  /** One step of `split()`: the first word, then the words of what follows it. */
  lemma {:induction false} SplitStep(s: string)
    requires TrimLeft(s) != []
    ensures Split(s) == [FirstWord(TrimLeft(s))] + Split(TrimLeft(s)[|FirstWord(TrimLeft(s))|..])
  {
  }

  /** One step of the gaps: the leading whitespace, then the gaps of what follows the first word. */
  lemma {:induction false} SplitGapsStep(s: string)
    requires TrimLeft(s) != []
    ensures SplitGaps(s) == [s[..|s| - |TrimLeft(s)|]] + SplitGaps(TrimLeft(s)[|FirstWord(TrimLeft(s))|..])
  {
  }

  /** The text is its leading whitespace, its first word and the rest. */
  lemma {:induction false} FirstWordSplits(s: string, t: string, w: string)
    requires t == TrimLeft(s) && w == FirstWord(t)
    ensures s == s[..|s| - |t|] + w + t[|w|..]
    ensures AllSpace(s[..|s| - |t|])
    ensures t[|w|..] == [] || IsSpace(t[|w|..][0])
  {
    var lead, rest := s[..|s| - |t|], t[|w|..];
    LeadThenRest(s, t);
    WordThenRest(t, w);
    AppendAssoc(lead, w, rest);
    LeadIsBlank(s, t);
  }

  lemma {:induction false} LeadThenRest(s: string, t: string)
    requires t == TrimLeft(s)
    ensures s == s[..|s| - |t|] + t
  {
  }

  lemma {:induction false} WordThenRest(t: string, w: string)
    requires w == FirstWord(t)
    ensures t == w + t[|w|..]
    ensures t[|w|..] == [] || IsSpace(t[|w|..][0])
  {
  }

  lemma {:induction false} LeadIsBlank(s: string, t: string)
    requires t == TrimLeft(s)
    ensures AllSpace(s[..|s| - |t|])
  {
    assert forall i :: 0 <= i < |s| - |t| ==> s[..|s| - |t|][i] == s[i];
  }

  /**
   * `split()` finds the maximal runs of non-whitespace: the text is its words
   * set between whitespace gaps, with whitespace between every two words.
   */
  lemma {:induction false} SplitCovers(s: string)
    ensures Separating(SplitGaps(s), |Split(s)|)
    ensures s == Interleave(SplitGaps(s), Split(s))
    decreases |s|
  {
    var t := TrimLeft(s);
    if t == [] {
      TrimLeftEmptyIffBlank(s);
      SplitBlank(s);
    } else {
      var w := FirstWord(t);
      var lead, rest := s[..|s| - |t|], t[|w|..];
      SplitStep(s);
      SplitGapsStep(s);
      FirstWordSplits(s, t, w);
      SplitCovers(rest);
      if Split(rest) != [] {
        GapAfterWord(rest);
      }
      CoversCons(lead, w, rest, SplitGaps(rest), Split(rest));
    }
  }

  /** A covering of the rest, with the leading whitespace and the first word in front, covers the whole. */
  lemma {:induction false} CoversCons(lead: string, w: string, rest: string, gaps: seq<string>, words: seq<string>)
    requires AllSpace(lead) && Separating(gaps, |words|) && rest == Interleave(gaps, words)
    requires words != [] ==> gaps[0] != ""
    ensures Separating([lead] + gaps, |[w] + words|)
    ensures lead + w + rest == Interleave([lead] + gaps, [w] + words)
  {
    var gs, ws := [lead] + gaps, [w] + words;
    assert gs[1..] == gaps && ws[1..] == words;
    assert forall i :: 1 <= i < |gs| ==> gs[i] == gaps[i - 1];
  }

  lemma AppendAssoc<T>(a: seq<T>, b: seq<T>, c: seq<T>)
    ensures (a + b) + c == a + (b + c)
  {
  }

  /** `split()` undoes `" ".join(...)` on words: the round trip of the two. */
  lemma {:induction false} SplitJoin(words: seq<string>)
    requires AreWords(words)
    ensures Split(Join(words, " ")) == words
  {
    if words == [] {
      SplitJoinNone(words);
    } else if |words| == 1 {
      SplitJoinOne(words);
    } else {
      AreWordsTail(words);
      SplitJoin(words[1..]);
      SplitJoinStep(words);
    }
  }
}
