/** Part 1 of `analyze_robot_logs`: merging physical lines into logical
    entries. A line that starts with a timestamp starts a new entry; any
    other non-blank line continues the pending one after a single space. */
module Reconstruct {
  import opened Text
  import opened Timestamps

  /** `raw_entries` and `current_buffer` between two lines. */
  datatype Accumulator = Accumulator(entries: seq<string>, buffer: string)

  /** One turn of the loop body on a raw line. */
  function Feed(acc: Accumulator, raw: string): Accumulator {
    FeedLine(acc, Strip(raw))
  }

  /** The accumulator after the loop has consumed `lines`. */
  function FeedAll(lines: seq<string>): Accumulator {
    if lines == [] then Accumulator([], "")
    else Feed(FeedAll(lines[..|lines| - 1]), lines[|lines| - 1])
  }

  /** The final flush of a non-empty buffer. */
  function Flush(acc: Accumulator): seq<string> {
    if acc.buffer != [] then acc.entries + [acc.buffer] else acc.entries
  }

  /** The logical entries of a file whose lines are `lines`. */
  function Entries(lines: seq<string>): seq<string> {
    Flush(FeedAll(lines))
  }

  /** The `for line in f` loop and the flush after it. */
  method ReconstructEntries(lines: seq<string>) returns (entries: seq<string>)
    ensures entries == Entries(lines)
  {
    entries := [];
    var buffer := "";
    for i := 0 to |lines|
      invariant Accumulator(entries, buffer) == FeedAll(lines[..i])
    {
      var line := Strip(lines[i]);
      FeedAllStep(lines, i, Accumulator(entries, buffer), line);
      if line == [] {
        continue;
      }
      if HasTimestampPrefix(line) {
        if buffer != [] {
          entries := entries + [buffer];
        }
        buffer := line;
      } else {
        buffer := buffer + " " + line;
      }
    }
    assert lines[..|lines|] == lines;
    if buffer != [] {
      entries := entries + [buffer];
    }
  }

  /** The fold over one more line is one more loop turn. */
  lemma FeedAllStep(lines: seq<string>, i: nat, acc: Accumulator, line: string)
    requires i < |lines| && acc == FeedAll(lines[..i]) && line == Strip(lines[i])
    ensures FeedAll(lines[..i + 1]) == FeedLine(acc, line)
  {
    assert lines[..i + 1][..i] == lines[..i];
  }

  // ----- Reference descriptions of the result -----

  /** The stripped non-blank lines, in order. */
  function NonBlank(lines: seq<string>): seq<string> {
    if lines == [] then []
    else
      var line := Strip(lines[|lines| - 1]);
      NonBlank(lines[..|lines| - 1]) + (if line == [] then [] else [line])
  }

  /** The first non-blank line is a continuation line. */
  predicate LeadingContinuation(lines: seq<string>) {
    var nb := NonBlank(lines);
    nb != [] && !HasTimestampPrefix(nb[0])
  }

  /** Number of lines that start with a timestamp. */
  function CountStamped(xs: seq<string>): nat {
    if xs == [] then 0
    else CountStamped(xs[..|xs| - 1]) + (if HasTimestampPrefix(xs[|xs| - 1]) then 1 else 0)
  }

  /** Strings joined with single spaces, as `" ".join(xs)`. */
  function JoinSpaced(xs: seq<string>): string {
    if xs == [] then ""
    else if |xs| == 1 then xs[0]
    else JoinSpaced(xs[..|xs| - 1]) + " " + xs[|xs| - 1]
  }

  lemma JoinAppend(xs: seq<string>, x: string)
    ensures JoinSpaced(xs + [x]) == if xs == [] then x else JoinSpaced(xs) + " " + x
  {
    assert (xs + [x])[..|xs|] == xs;
  }

  lemma JoinExtendLast(xs: seq<string>, b: string, l: string)
    ensures JoinSpaced(xs + [b + " " + l]) == JoinSpaced(xs + [b]) + " " + l
  {
    JoinAppend(xs, b + " " + l);
    JoinAppend(xs, b);
  }

  /** The buffer is empty exactly until the first non-blank line, and no
      entry is flushed before that. */
  lemma {:induction false} BufferEmptyUntilText(lines: seq<string>)
    ensures FeedAll(lines).buffer == [] <==> NonBlank(lines) == []
    ensures FeedAll(lines).buffer == [] ==> FeedAll(lines).entries == []
  {
    if lines != [] {
      BufferEmptyUntilText(lines[..|lines| - 1]);
    }
  }

  /** One turn of the loop on an already stripped line. */
  function FeedLine(acc: Accumulator, line: string): Accumulator {
    if line == [] then acc
    else if HasTimestampPrefix(line) then
      Accumulator(if acc.buffer != [] then acc.entries + [acc.buffer] else acc.entries, line)
    else
      Accumulator(acc.entries, acc.buffer + " " + line)
  }

  /** How one line changes the flushed view of the accumulator: a blank line
      leaves it alone, a timestamped line adds an entry, a continuation line
      extends the last entry (or opens one starting with a space). */
  lemma FeedFlush(acc: Accumulator, line: string)
    requires acc.buffer == [] ==> acc.entries == []
    ensures line == [] ==> Flush(FeedLine(acc, line)) == Flush(acc)
    ensures line != [] && HasTimestampPrefix(line) ==> Flush(FeedLine(acc, line)) == Flush(acc) + [line]
    ensures line != [] && !HasTimestampPrefix(line) && Flush(acc) == [] ==>
      Flush(FeedLine(acc, line)) == [" " + line]
    ensures line != [] && !HasTimestampPrefix(line) && Flush(acc) != [] ==>
      var fl := Flush(acc);
      Flush(FeedLine(acc, line)) == fl[..|fl| - 1] + [fl[|fl| - 1] + " " + line]
  {
    if line != [] && !HasTimestampPrefix(line) {
      if acc.buffer == [] {
        assert FeedLine(acc, line) == Accumulator([], " " + line);
      } else {
        assert Flush(acc)[..|Flush(acc)| - 1] == acc.entries;
      }
    }
  }

  /** The prefix `lines` and its last line, in the terms of one loop turn. */
  lemma Unfold(lines: seq<string>)
    requires lines != []
    ensures var front, line := lines[..|lines| - 1], Strip(lines[|lines| - 1]);
      && FeedAll(lines) == FeedLine(FeedAll(front), line)
      && NonBlank(lines) == NonBlank(front) + (if line == [] then [] else [line])
  {
  }

  /** Leading text is decided by the first non-blank line. */
  function Lead(nb: seq<string>): string {
    if nb != [] && !HasTimestampPrefix(nb[0]) then " " else ""
  }

  /** The flushed entries after a non-blank line, joined: the old join
      extended by a space and the line (or the line alone at the start). */
  lemma JoinedAfterLine(acc: Accumulator, line: string)
    requires acc.buffer == [] ==> acc.entries == []
    requires line != []
    ensures var fl := Flush(acc);
      JoinSpaced(Flush(FeedLine(acc, line))) ==
        if fl != [] then JoinSpaced(fl) + " " + line
        else if HasTimestampPrefix(line) then line
        else " " + line
  {
    FeedFlush(acc, line);
    var fl := Flush(acc);
    if HasTimestampPrefix(line) {
      JoinAppend(fl, line);
    } else if fl != [] {
      assert fl == fl[..|fl| - 1] + [fl[|fl| - 1]];
      JoinExtendLast(fl[..|fl| - 1], fl[|fl| - 1], line);
    }
  }

  lemma KeepTextStep(acc: Accumulator, nb: seq<string>, line: string)
    requires acc.buffer == [] <==> nb == []
    requires acc.buffer == [] ==> acc.entries == []
    requires JoinSpaced(Flush(acc)) == Lead(nb) + JoinSpaced(nb)
    ensures var nb' := nb + (if line == [] then [] else [line]);
      JoinSpaced(Flush(FeedLine(acc, line))) == Lead(nb') + JoinSpaced(nb')
  {
    if line == [] {
      assert nb + [] == nb;
    } else if nb == [] {
      KeepTextFirst(acc, line);
    } else {
      KeepTextLater(acc, nb, line);
    }
  }

  /** The first non-blank line. */
  lemma KeepTextFirst(acc: Accumulator, line: string)
    requires acc == Accumulator([], "") && line != []
    ensures JoinSpaced(Flush(FeedLine(acc, line))) == Lead([] + [line]) + JoinSpaced([] + [line])
  {
    JoinedAfterLine(acc, line);
    assert [] + [line] == [line];
  }

  /** A non-blank line after others. */
  lemma KeepTextLater(acc: Accumulator, nb: seq<string>, line: string)
    requires acc.buffer != [] && nb != [] && line != []
    requires JoinSpaced(Flush(acc)) == Lead(nb) + JoinSpaced(nb)
    ensures JoinSpaced(Flush(FeedLine(acc, line))) == Lead(nb + [line]) + JoinSpaced(nb + [line])
  {
    assert Flush(acc) != [];
    JoinedAfterLine(acc, line);
    JoinAppend(nb, line);
    assert Lead(nb + [line]) == Lead(nb) by {
      assert (nb + [line])[0] == nb[0];
    }
    Regroup(Lead(nb), JoinSpaced(nb), line);
  }

  /** Regrouping of the joined text, stated apart so that the context of
      KeepTextLater stays small. */
  lemma Regroup(a: string, b: string, line: string)
    ensures (a + b) + " " + line == a + (b + " " + line)
  {
  }

  /** Joining the entries with single spaces gives back the non-blank lines
      joined the same way, behind one extra space when the text opens with
      continuation lines: nothing is lost, reordered or added. */
  lemma {:induction false} EntriesKeepText(lines: seq<string>)
    ensures JoinSpaced(Entries(lines))
         == (if LeadingContinuation(lines) then " " else "") + JoinSpaced(NonBlank(lines))
  {
    if lines != [] {
      var front := lines[..|lines| - 1];
      EntriesKeepText(front);
      BufferEmptyUntilText(front);
      Unfold(lines);
      KeepTextStep(FeedAll(front), NonBlank(front), Strip(lines[|lines| - 1]));
    }
  }

  /** The shape of a flushed entry list `fl` after the non-blank lines `nb`. */
  predicate Shaped(fl: seq<string>, nb: seq<string>) {
    && (forall k :: 0 <= k < |fl| ==> fl[k] != [])
    && (forall k :: 0 < k < |fl| ==> HasTimestampPrefix(fl[k]))
    && (fl != [] ==> (fl[0][0] == ' ' <==> Lead(nb) == " "))
    && (fl != [] && Lead(nb) == "" ==> HasTimestampPrefix(fl[0]))
    && |fl| == CountStamped(nb) + (if Lead(nb) == " " then 1 else 0)
  }

  lemma ShapeStep(acc: Accumulator, nb: seq<string>, line: string)
    requires acc.buffer == [] <==> nb == []
    requires acc.buffer == [] ==> acc.entries == []
    requires Shaped(Flush(acc), nb)
    requires line == [] || !IsSpace(line[0])
    ensures Shaped(Flush(FeedLine(acc, line)), nb + (if line == [] then [] else [line]))
  {
    if line == [] {
      assert nb + [] == nb;
    } else if HasTimestampPrefix(line) {
      ShapeStamped(acc, nb, line);
    } else {
      ShapeContinued(acc, nb, line);
    }
  }

  /** A timestamped line adds one well-formed entry. */
  lemma ShapeStamped(acc: Accumulator, nb: seq<string>, line: string)
    requires acc.buffer == [] <==> nb == []
    requires acc.buffer == [] ==> acc.entries == []
    requires Shaped(Flush(acc), nb)
    requires line != [] && HasTimestampPrefix(line)
    ensures Shaped(Flush(FeedLine(acc, line)), nb + [line])
  {
    FeedFlush(acc, line);
    ShapedAddEntry(Flush(acc), nb, line);
  }

  /** A continuation line extends the last entry, or opens the leading one. */
  lemma ShapeContinued(acc: Accumulator, nb: seq<string>, line: string)
    requires acc.buffer == [] <==> nb == []
    requires acc.buffer == [] ==> acc.entries == []
    requires Shaped(Flush(acc), nb)
    requires line != [] && !IsSpace(line[0]) && !HasTimestampPrefix(line)
    ensures Shaped(Flush(FeedLine(acc, line)), nb + [line])
  {
    FeedFlush(acc, line);
    if nb == [] {
      ShapedOpen(line);
    } else {
      ShapedExtend(Flush(acc), nb, line);
    }
  }

  lemma ShapedAddEntry(fl: seq<string>, nb: seq<string>, line: string)
    requires Shaped(fl, nb) && (fl == [] <==> nb == [])
    requires line != [] && HasTimestampPrefix(line)
    ensures Shaped(fl + [line], nb + [line])
  {
    var nb', fl' := nb + [line], fl + [line];
    assert nb'[..|nb|] == nb;
    if nb != [] {
      assert nb'[0] == nb[0];
    }
    assert fl'[|fl|] == line;
    if fl == [] {
      assert FitsShape(line[0], Shape[0]);
    }
  }

  lemma ShapedOpen(line: string)
    requires line != [] && !IsSpace(line[0]) && !HasTimestampPrefix(line)
    ensures Shaped([" " + line], [line])
  {
    assert [line][..0] == [];
  }

  lemma ShapedExtend(fl: seq<string>, nb: seq<string>, line: string)
    requires Shaped(fl, nb) && fl != [] && nb != []
    requires line != [] && !HasTimestampPrefix(line)
    ensures Shaped(fl[..|fl| - 1] + [fl[|fl| - 1] + " " + line], nb + [line])
  {
    var last := fl[|fl| - 1];
    var nb', fl' := nb + [line], fl[..|fl| - 1] + [last + " " + line];
    assert nb'[..|nb|] == nb;
    assert nb'[0] == nb[0];
    assert fl'[..|fl| - 1] == fl[..|fl| - 1];
    if |fl| > 1 || HasTimestampPrefix(last) {
      PrefixKept(last, " " + line);
      assert last + " " + line == last + (" " + line);
    }
  }

  /** The shape of the entry list: every entry is non-empty and every entry
      but the first starts with a timestamp; the first starts with a space
      exactly when the text opens with continuation lines, and with a
      timestamp otherwise. There is one entry per timestamped line, plus the
      leading one. */
  lemma {:induction false} EntriesShape(lines: seq<string>)
    ensures var es := Entries(lines);
      && (forall k :: 0 <= k < |es| ==> es[k] != [])
      && (forall k :: 0 < k < |es| ==> HasTimestampPrefix(es[k]))
      && (es != [] ==> (es[0][0] == ' ' <==> LeadingContinuation(lines)))
      && (es != [] && !LeadingContinuation(lines) ==> HasTimestampPrefix(es[0]))
      && |es| == CountStamped(NonBlank(lines)) + (if LeadingContinuation(lines) then 1 else 0)
  {
    ShapedAll(lines);
  }

  lemma {:induction false} ShapedAll(lines: seq<string>)
    ensures Shaped(Entries(lines), NonBlank(lines))
  {
    if lines != [] {
      var front := lines[..|lines| - 1];
      ShapedAll(front);
      BufferEmptyUntilText(front);
      Unfold(lines);
      ShapeStep(FeedAll(front), NonBlank(front), Strip(lines[|lines| - 1]));
    }
  }

  /** A timestamped line followed by one continuation line makes a single
      entry: the two lines joined by one space. */
  lemma ContinuationJoins(a: string, b: string)
    requires a != [] && Strip(a) == a && HasTimestampPrefix(a)
    requires b != [] && Strip(b) == b && !HasTimestampPrefix(b)
    ensures Entries([a, b]) == [a + " " + b]
  {
    assert [a, b][..1] == [a] && [a][..0] == [];
    assert FeedAll([a]) == Accumulator([], a);
    assert FeedAll([a, b]) == Accumulator([], a + " " + b);
  }
}
