/**
 * Greedy line wrapping (`split_text_to_lines`): words are added to the current
 * line while the measured candidate fits the width; the first word that does
 * not fit closes the line and starts the next one.
 */
module Wrap {
  import opened Strings

  /** The width of a string set at a font size: reportlab's `stringWidth` with the font name fixed. */
  type Measure = (string, nat) -> real

  /** The current line as a list (empty while no word has been taken). */
  function Pending(cur: string): seq<string> {
    if cur == "" then [] else [cur]
  }

  /** The current line extended by a word, one space between them. */
  function Glue(cur: string, w: string): string {
    if cur == "" then w else cur + " " + w
  }

  /**
   * The lines the greedy loop produces from `words` onwards when `cur` is the
   * line under construction: the candidate is the line extended by the next
   * word, and it is kept when its width is at most `maxWidth`.
   */
  function Fill(words: seq<string>, cur: string, measure: Measure, size: nat, maxWidth: real): seq<string>
    decreases |words|
  {
    if words == [] then Pending(cur)
    else
      var candidate := Glue(cur, words[0]);
      if measure(candidate, size) <= maxWidth then Fill(words[1..], candidate, measure, size, maxWidth)
      else Pending(cur) + Fill(words[1..], words[0], measure, size, maxWidth)
  }

  /** The lines `split_text_to_lines(text, font, size, maxWidth)` returns. */
  function Wrapped(text: string, measure: Measure, size: nat, maxWidth: real): seq<string> {
    Fill(Split(text), "", measure, size, maxWidth)
  }

  /** Lines are never empty. */
  predicate NoEmptyLine(lines: seq<string>) {
    forall i :: 0 <= i < |lines| ==> lines[i] != ""
  }

  /** Every line fits the width, or is a single word of the text. */
  predicate FitsOrWord(lines: seq<string>, words: seq<string>, measure: Measure, size: nat, maxWidth: real) {
    forall i :: 0 <= i < |lines| ==> measure(lines[i], size) <= maxWidth || lines[i] in words
  }

  /** No line could have taken the first word of the next one. */
  predicate Greedy(lines: seq<string>, measure: Measure, size: nat, maxWidth: real) {
    forall i :: 0 <= i < |lines| - 1 ==> measure(lines[i] + " " + FirstWord(lines[i + 1]), size) > maxWidth
  }

  /** A line under construction: nothing yet, or words joined by single spaces. */
  predicate LineShape(cur: string) {
    Trimmed(cur)
  }

  /** `(cur + " " + w).strip()`, the candidate the source measures, is the line glued to the word. */
  lemma CandidateIsGlued(cur: string, w: string)
    requires LineShape(cur) && IsWord(w)
    ensures Strip(cur + " " + w) == Glue(cur, w)
    ensures LineShape(Glue(cur, w))
  {
    if cur == "" {
      CandidateFirst(cur, w);
    } else {
      CandidateNext(cur, w);
    }
  }

  /** The first word of a line is the whole candidate. */
  lemma CandidateFirst(cur: string, w: string)
    requires cur == "" && IsWord(w)
    ensures Strip(cur + " " + w) == Glue(cur, w)
  {
    assert cur + " " + w == " " + w;
    StripSpaceWord(w);
  }

  /** A later word is glued to the line by one space, and the result is already stripped. */
  lemma CandidateNext(cur: string, w: string)
    requires cur != "" && Trimmed(cur) && IsWord(w)
    ensures Strip(cur + " " + w) == Glue(cur, w)
  {
    GluedTrimmed(cur, w);
    StripOfTrimmed(cur + " " + w);
  }

  /** A word after one space strips to the word. */
  lemma StripSpaceWord(w: string)
    requires IsWord(w)
    ensures Strip(" " + w) == w
  {
    WordTrimmed(w);
    StripOfTrimmed(w);
    TrimLeftSpace(' ', w);
  }

  lemma WordTrimmed(w: string)
    requires IsWord(w)
    ensures Trimmed(w)
  {
  }

  /** A non-empty line, a space and a word have no whitespace at either end. */
  lemma GluedTrimmed(cur: string, w: string)
    requires cur != "" && Trimmed(cur) && IsWord(w)
    ensures Trimmed(cur + " " + w)
  {
    var s := cur + " " + w;
    assert s[0] == cur[0];
    assert s[|s| - 1] == w[|w| - 1];
  }

  lemma JoinCons(x: string, rest: seq<string>, sep: string)
    requires rest != []
    ensures Join([x] + rest, sep) == x + sep + Join(rest, sep)
  {
    assert ([x] + rest)[1..] == rest;
  }

  /** Joining `a sep b` as one part is the same as joining `a` and `b` as two. */
  lemma JoinMerge(a: string, b: string, rest: seq<string>, sep: string)
    ensures Join([a + sep + b] + rest, sep) == Join([a, b] + rest, sep)
  {
    assert ([a, b] + rest)[1..] == [b] + rest;
    if rest == [] {
      assert [a + sep + b] + rest == [a + sep + b];
      assert [a, b] + rest == [a, b];
    } else {
      JoinCons(a + sep + b, rest, sep);
      JoinCons(b, rest, sep);
      JoinCons(a, [b] + rest, sep);
    }
  }

  /** Once a word has been taken, a line is produced, and it starts with the first word taken. */
  lemma {:induction false} FillStartsWithCurrent(words: seq<string>, cur: string, measure: Measure, size: nat, maxWidth: real)
    requires AreWords(words) && cur != ""
    ensures Fill(words, cur, measure, size, maxWidth) != []
    ensures FirstWord(Fill(words, cur, measure, size, maxWidth)[0]) == FirstWord(cur)
    decreases |words|
  {
    if words != [] {
      var w := words[0];
      var candidate := Glue(cur, w);
      if measure(candidate, size) <= maxWidth {
        FillStartsWithCurrent(words[1..], candidate, measure, size, maxWidth);
        assert cur + " " + w == cur + (" " + w);
        FirstWordBeforeSpace(cur, " " + w);
      }
    }
  }

  /** Joining the lines with spaces gives the pending line and the remaining words joined with spaces. */
  lemma {:induction false} FillJoin(words: seq<string>, cur: string, measure: Measure, size: nat, maxWidth: real)
    requires AreWords(words)
    ensures Join(Fill(words, cur, measure, size, maxWidth), " ") == Join(Pending(cur) + words, " ")
    decreases |words|
  {
    if words == [] {
      assert Pending(cur) + words == Pending(cur);
    } else {
      var w, rest := words[0], words[1..];
      assert words == [w] + rest;
      var candidate := Glue(cur, w);
      if measure(candidate, size) <= maxWidth {
        FillJoin(rest, candidate, measure, size, maxWidth);
        assert Pending(candidate) == [candidate];
        if cur != "" {
          JoinMerge(cur, w, rest, " ");
          assert Pending(cur) + words == [cur, w] + rest;
        } else {
          assert Pending(cur) + words == [candidate] + rest;
        }
      } else {
        FillJoin(rest, w, measure, size, maxWidth);
        if cur != "" {
          var tail := Fill(rest, w, measure, size, maxWidth);
          FillStartsWithCurrent(rest, w, measure, size, maxWidth);
          assert Pending(w) + rest == words;
          JoinCons(cur, tail, " ");
          JoinCons(cur, words, " ");
          assert Fill(words, cur, measure, size, maxWidth) == [cur] + tail;
          assert Pending(cur) + words == [cur] + words;
        } else {
          assert Pending(w) + rest == words;
          assert Pending(cur) + words == words;
          assert Fill(words, cur, measure, size, maxWidth) == [] + Fill(rest, w, measure, size, maxWidth);
          assert [] + Fill(rest, w, measure, size, maxWidth) == Fill(rest, w, measure, size, maxWidth);
        }
      }
    }
  }

  lemma {:induction false} FillNoEmptyLine(words: seq<string>, cur: string, measure: Measure, size: nat, maxWidth: real)
    requires AreWords(words)
    ensures NoEmptyLine(Fill(words, cur, measure, size, maxWidth))
    decreases |words|
  {
    if words != [] {
      var w := words[0];
      var candidate := Glue(cur, w);
      if measure(candidate, size) <= maxWidth {
        FillNoEmptyLine(words[1..], candidate, measure, size, maxWidth);
      } else {
        FillNoEmptyLine(words[1..], w, measure, size, maxWidth);
      }
    }
  }

  lemma {:induction false} FillFitsOrWord(words: seq<string>, cur: string, all: seq<string>, measure: Measure, size: nat, maxWidth: real)
    requires forall i :: 0 <= i < |words| ==> words[i] in all
    requires cur == "" || measure(cur, size) <= maxWidth || cur in all
    ensures FitsOrWord(Fill(words, cur, measure, size, maxWidth), all, measure, size, maxWidth)
    decreases |words|
  {
    if words != [] {
      var candidate := Glue(cur, words[0]);
      if measure(candidate, size) <= maxWidth {
        FillFitsOrWord(words[1..], candidate, all, measure, size, maxWidth);
      } else {
        FillFitsOrWord(words[1..], words[0], all, measure, size, maxWidth);
      }
    }
  }

  lemma {:induction false} FillGreedy(words: seq<string>, cur: string, measure: Measure, size: nat, maxWidth: real)
    requires AreWords(words)
    ensures Greedy(Fill(words, cur, measure, size, maxWidth), measure, size, maxWidth)
    decreases |words|
  {
    if words != [] {
      var w, rest := words[0], words[1..];
      var candidate := Glue(cur, w);
      if measure(candidate, size) <= maxWidth {
        FillGreedy(rest, candidate, measure, size, maxWidth);
      } else {
        FillGreedy(rest, w, measure, size, maxWidth);
        if cur != "" {
          var tail := Fill(rest, w, measure, size, maxWidth);
          FillStartsWithCurrent(rest, w, measure, size, maxWidth);
          FirstWordOfWord(w);
          var lines := [cur] + tail;
          forall i | 0 <= i < |lines| - 1
            ensures measure(lines[i] + " " + FirstWord(lines[i + 1]), size) > maxWidth
          {
            if i > 0 {
              assert lines[i] == tail[i - 1] && lines[i + 1] == tail[i];
            }
          }
        }
      }
    }
  }

  /** The greedy fill produces no line only when there are no words. */
  lemma WrappedEmpty(words: seq<string>, measure: Measure, size: nat, maxWidth: real)
    requires AreWords(words)
    ensures Fill(words, "", measure, size, maxWidth) == [] <==> words == []
  {
    if words != [] {
      var w := words[0];
      FillStartsWithCurrent(words[1..], w, measure, size, maxWidth);
    }
  }

  /** The greedy specification keeps every word in order, never emits an empty line, fits every line it can, and merges no two lines that could share one. */
  lemma WrappedProperties(text: string, measure: Measure, size: nat, maxWidth: real)
    ensures Join(Wrapped(text, measure, size, maxWidth), " ") == Join(Split(text), " ")
    ensures NoEmptyLine(Wrapped(text, measure, size, maxWidth))
    ensures Wrapped(text, measure, size, maxWidth) == [] <==> AllSpace(text)
    ensures FitsOrWord(Wrapped(text, measure, size, maxWidth), Split(text), measure, size, maxWidth)
    ensures Greedy(Wrapped(text, measure, size, maxWidth), measure, size, maxWidth)
  {
    var words := Split(text);
    FillJoin(words, "", measure, size, maxWidth);
    assert Pending("") + words == words;
    FillNoEmptyLine(words, "", measure, size, maxWidth);
    WrappedEmpty(words, measure, size, maxWidth);
    SplitBlank(text);
    FillFitsOrWord(words, "", words, measure, size, maxWidth);
    FillGreedy(words, "", measure, size, maxWidth);
  }

  /** The loop takes word `k` into the current line when the candidate fits: the lines still to come are unchanged. */
  lemma TakeWord(lines: seq<string>, words: seq<string>, k: nat, cur: string, all: seq<string>, measure: Measure, size: nat, maxWidth: real)
    requires k < |words| && measure(Glue(cur, words[k]), size) <= maxWidth
    requires lines + Fill(words[k..], cur, measure, size, maxWidth) == all
    ensures lines + Fill(words[k + 1..], Glue(cur, words[k]), measure, size, maxWidth) == all
  {
    assert words[k..][1..] == words[k + 1..];
  }

  /** Otherwise the current line is emitted and word `k` starts the next one. */
  lemma CloseLine(lines: seq<string>, words: seq<string>, k: nat, cur: string, all: seq<string>, measure: Measure, size: nat, maxWidth: real)
    requires k < |words| && measure(Glue(cur, words[k]), size) > maxWidth
    requires lines + Fill(words[k..], cur, measure, size, maxWidth) == all
    ensures (lines + Pending(cur)) + Fill(words[k + 1..], words[k], measure, size, maxWidth) == all
  {
    assert words[k..][1..] == words[k + 1..];
    var rest := Fill(words[k + 1..], words[k], measure, size, maxWidth);
    assert lines + (Pending(cur) + rest) == (lines + Pending(cur)) + rest;
  }

  /** After the last word the pending line is emitted. */
  lemma LastLine(lines: seq<string>, words: seq<string>, cur: string, all: seq<string>, measure: Measure, size: nat, maxWidth: real)
    requires lines + Fill(words[|words|..], cur, measure, size, maxWidth) == all
    ensures lines + Pending(cur) == all
  {
    assert words[|words|..] == [];
  }

  /**
   * The loop of `split_text_to_lines` over the words of the text, with its
   * `cur` accumulator; the candidate is measured as the source builds it.
   */
  method FillLines(words: seq<string>, measure: Measure, size: nat, maxWidth: real) returns (lines: seq<string>)
    requires AreWords(words)
    ensures lines == Fill(words, "", measure, size, maxWidth)
  {
    ghost var all := Fill(words, "", measure, size, maxWidth);
    lines := [];
    var cur := "";
    assert words[0..] == words;
    for k := 0 to |words|
      invariant LineShape(cur)
      invariant lines + Fill(words[k..], cur, measure, size, maxWidth) == all
    {
      var w := words[k];
      var candidate := Strip(cur + " " + w);
      CandidateIsGlued(cur, w);
      if measure(candidate, size) <= maxWidth {
        TakeWord(lines, words, k, cur, all, measure, size, maxWidth);
        cur := candidate;
      } else {
        CloseLine(lines, words, k, cur, all, measure, size, maxWidth);
        lines := lines + Pending(cur);
        cur := w;
      }
    }
    LastLine(lines, words, cur, all, measure, size, maxWidth);
    lines := lines + Pending(cur);
  }

  /** `split_text_to_lines`: the words of the text filled greedily into lines. */
  method SplitTextToLines(text: string, measure: Measure, size: nat, maxWidth: real) returns (lines: seq<string>)
    ensures lines == Wrapped(text, measure, size, maxWidth)
    ensures Join(lines, " ") == Join(Split(text), " ")
    ensures NoEmptyLine(lines)
    ensures lines == [] <==> AllSpace(text)
    ensures FitsOrWord(lines, Split(text), measure, size, maxWidth)
    ensures Greedy(lines, measure, size, maxWidth)
  {
    lines := FillLines(Split(text), measure, size, maxWidth);
    WrappedProperties(text, measure, size, maxWidth);
  }
}
