/**
 * Preparing a reply for speech in `luna_raw_assistant.py` and the strawberry
 * script: `split_into_sentences` cuts the text after sentence punctuation and
 * `group_sentences` packs consecutive sentences into chunks of bounded size.
 */
module Sentences {
  import opened Seqs
  import opened Text

  predicate IsTerminator(c: char)
  {
    c == '.' || c == '!' || c == '?'
  }

  /**
   * `text[p]` starts a match of the splitting pattern `(?<=[.!?]) +`:
   * a space right after sentence punctuation.
   */
  predicate IsBreak(text: string, p: int)
  {
    0 < p < |text| && text[p] == ' ' && IsTerminator(text[p - 1])
  }

  predicate NoBreak(text: string)
  {
    forall p :: 0 < p < |text| ==> !IsBreak(text, p)
  }

  /** The leftmost match at or after `from`, or `|text|` when there is none. */
  function NextBreak(text: string, from: nat): (p: nat)
    requires from <= |text|
    ensures from <= p <= |text|
    ensures p < |text| ==> IsBreak(text, p)
    ensures forall j :: from <= j < p ==> !IsBreak(text, j)
    decreases |text| - from
  {
    if from == |text| || IsBreak(text, from) then from else NextBreak(text, from + 1)
  }

  /** The end of the run of spaces starting at `p`: the pattern's ` +` is greedy. */
  function RunEnd(text: string, p: nat): (q: nat)
    requires p <= |text|
    ensures p <= q <= |text|
    ensures forall j :: p <= j < q ==> text[j] == ' '
    ensures q < |text| ==> text[q] != ' '
    decreases |text| - p
  {
    if p == |text| || text[p] != ' ' then p else RunEnd(text, p + 1)
  }

  /**
   * `re.split('(?<=[.!?]) +', text)`, returning the removed space runs
   * beside the pieces: `(pieces, gaps)` with one gap between each two pieces.
   * Matching resumes after each run; there the lookbehind sees a space, so
   * continuing on the rest of the text finds the same matches.
   */
  function SplitWithGaps(text: string): (r: (seq<string>, seq<string>))
    ensures |r.0| == |r.1| + 1
    ensures forall k :: 0 <= k < |r.0| - 1 ==> |r.0[k]| > 0 && IsTerminator(r.0[k][|r.0[k]| - 1])
    ensures forall k :: 0 <= k < |r.0| ==> NoBreak(r.0[k])
    ensures forall k :: 0 <= k < |r.1| ==> |r.1[k]| > 0 && forall j :: 0 <= j < |r.1[k]| ==> r.1[k][j] == ' '
    ensures forall k :: 1 <= k < |r.0| ==> |r.0[k]| == 0 || r.0[k][0] != ' '
    decreases |text|
  {
    var p := NextBreak(text, 0);
    if p == |text| then
      ([text], [])
    else
      var q := RunEnd(text, p);
      var rest := SplitWithGaps(text[q..]);
      var piece := text[..p];
      assert forall j :: !IsBreak(piece, j) by {
        forall j | IsBreak(piece, j) ensures false {
          assert IsBreak(text, j);
        }
      }
      ([piece] + rest.0, [text[p..q]] + rest.1)
  }

  /** `split_into_sentences`. */
  function SplitIntoSentences(text: string): (r: seq<string>)
    ensures |r| >= 1
    ensures forall k :: 0 <= k < |r| - 1 ==> |r[k]| > 0 && IsTerminator(r[k][|r[k]| - 1])
    ensures forall k :: 0 <= k < |r| ==> NoBreak(r[k])
  {
    SplitWithGaps(text).0
  }

  /** Pieces with the gaps put back between them: `p0 + g0 + p1 + g1 + ... + pn`. */
  function Weave(pieces: seq<string>, gaps: seq<string>): string
    requires |pieces| == |gaps| + 1
    decreases |gaps|
  {
    if gaps == [] then pieces[0] else pieces[0] + gaps[0] + Weave(pieces[1..], gaps[1..])
  }

  /** Splitting removes only the space runs: putting them back gives the text. */
  lemma {:induction false} SplitWeave(text: string)
    ensures Weave(SplitWithGaps(text).0, SplitWithGaps(text).1) == text
    decreases |text|
  {
    var p := NextBreak(text, 0);
    if p < |text| {
      var q := RunEnd(text, p);
      var rest := SplitWithGaps(text[q..]);
      SplitWeave(text[q..]);
      var r := SplitWithGaps(text);
      assert r.0[1..] == rest.0 && r.1[1..] == rest.1;
      assert text == text[..p] + text[p..q] + text[q..];
    }
  }

  /** Sum of the sentence lengths, joining spaces not counted (`current_length`). */
  function TotalLength(ss: seq<string>): nat
    decreases |ss|
  {
    if ss == [] then 0 else TotalLength(ss[..|ss| - 1]) + |ss[|ss| - 1]|
  }

  /** The `max_chars` both scripts call `group_sentences` with: its default. */
  const DefaultMaxChars: int := 250

  /**
   * What `group_sentences` promises about its groups: they partition the
   * sentences in order, none is empty, a group of two or more sentences stays
   * within `maxChars`, and each group was closed only because its next
   * sentence would have taken it over `maxChars`.
   */
  predicate IsGreedyPacking(sentences: seq<string>, maxChars: int, packs: seq<seq<string>>)
  {
    Flatten(packs) == sentences && GroupsOk(packs, maxChars)
  }

  /** The conditions on the groups themselves, apart from what they concatenate to. */
  predicate GroupsOk(packs: seq<seq<string>>, maxChars: int)
  {
    && (forall k :: 0 <= k < |packs| ==> Fits(packs[k], maxChars))
    && (forall k :: 0 <= k < |packs| - 1 ==> Overflows(packs[k], packs[k + 1], maxChars))
  }

  /** A group is non-empty, and within `maxChars` unless it is a single sentence. */
  predicate Fits(pack: seq<string>, maxChars: int)
  {
    |pack| > 0 && (|pack| > 1 ==> TotalLength(pack) <= maxChars)
  }

  /** The first sentence of `next` would have taken `pack` over `maxChars`. */
  predicate Overflows(pack: seq<string>, next: seq<string>, maxChars: int)
  {
    |next| > 0 && TotalLength(pack) + |next[0]| > maxChars
  }

  /** Closing one more group keeps the conditions when it is non-empty, fits, and its first sentence overflowed the group before it. */
  lemma GroupsSnoc(packs: seq<seq<string>>, maxChars: int, pack: seq<string>)
    requires GroupsOk(packs, maxChars)
    requires Fits(pack, maxChars)
    requires |packs| > 0 ==> Overflows(packs[|packs| - 1], pack, maxChars)
    ensures GroupsOk(packs + [pack], maxChars)
  {
    var packs' := packs + [pack];
    forall k | 0 <= k < |packs'|
      ensures Fits(packs'[k], maxChars)
    {
      if k < |packs| {
        assert packs'[k] == packs[k];
      }
    }
    forall k | 0 <= k < |packs'| - 1
      ensures Overflows(packs'[k], packs'[k + 1], maxChars)
    {
      assert packs'[k] == packs[k];
      if k + 1 < |packs| {
        assert packs'[k + 1] == packs[k + 1];
      }
    }
  }

  /**
   * The state of `group_sentences` after reading `sentences`: the groups it
   * has closed and the group it is still filling.
   */
  function GreedyState(sentences: seq<string>, maxChars: int): (st: (seq<seq<string>>, seq<string>))
    decreases |sentences|
  {
    if sentences == [] then ([], [])
    else GreedyStep(GreedyState(sentences[..|sentences| - 1], maxChars), sentences[|sentences| - 1], maxChars)
  }

  /** One iteration: a sentence that would overflow a non-empty open group closes it first. */
  function GreedyStep(st: (seq<seq<string>>, seq<string>), x: string, maxChars: int): (seq<seq<string>>, seq<string>)
  {
    var (closed, open) := st;
    if TotalLength(open) + |x| > maxChars && open != [] then (closed + [open], [x])
    else (closed, open + [x])
  }

  /** Reading one sentence more is one more step. */
  lemma GreedyStatePrefix(sentences: seq<string>, maxChars: int, i: nat)
    requires i < |sentences|
    ensures GreedyState(sentences[..i + 1], maxChars) == GreedyStep(GreedyState(sentences[..i], maxChars), sentences[i], maxChars)
  {
    assert sentences[..i + 1][..i] == sentences[..i];
  }

  /** Each group is its sentences joined with single spaces. */
  predicate Joined(groups: seq<string>, packs: seq<seq<string>>)
  {
    |groups| == |packs| && forall k :: 0 <= k < |packs| ==> groups[k] == Join(" ", packs[k])
  }

  lemma JoinedSnoc(groups: seq<string>, packs: seq<seq<string>>, pack: seq<string>)
    requires Joined(groups, packs)
    ensures Joined(groups + [Join(" ", pack)], packs + [pack])
  {
  }

  /** What holds of the state after reading `sentences`. */
  predicate StateOk(sentences: seq<string>, maxChars: int, closed: seq<seq<string>>, open: seq<string>)
  {
    && Flatten(closed) + open == sentences
    && GroupsOk(closed, maxChars)
    && (|open| > 1 ==> TotalLength(open) <= maxChars)
    && (|closed| > 0 ==> Overflows(closed[|closed| - 1], open, maxChars))
    && (|sentences| > 0 ==> |open| > 0)
  }

  lemma TotalLengthSnoc(ss: seq<string>, x: string)
    ensures TotalLength(ss + [x]) == TotalLength(ss) + |x|
  {
    assert (ss + [x])[..|ss|] == ss;
  }

  /** Reading a sentence that would overflow the open group closes it. */
  lemma StepClose(sentences: seq<string>, maxChars: int, closed: seq<seq<string>>, open: seq<string>, x: string)
    requires StateOk(sentences, maxChars, closed, open)
    requires TotalLength(open) + |x| > maxChars && open != []
    ensures StateOk(sentences + [x], maxChars, closed + [open], [x])
  {
    FlattenAppend(closed, [open]);
    FlattenSingleton(open);
    GroupsSnoc(closed, maxChars, open);
  }

  /** Reading a sentence that fits, or starts the first group, extends the open group. */
  lemma StepExtend(sentences: seq<string>, maxChars: int, closed: seq<seq<string>>, open: seq<string>, x: string)
    requires StateOk(sentences, maxChars, closed, open)
    requires !(TotalLength(open) + |x| > maxChars && open != [])
    ensures StateOk(sentences + [x], maxChars, closed, open + [x])
  {
    TotalLengthSnoc(open, x);
  }

  /** One step keeps the state invariant. */
  lemma StepOk(sentences: seq<string>, maxChars: int, st: (seq<seq<string>>, seq<string>), x: string)
    requires StateOk(sentences, maxChars, st.0, st.1)
    ensures StateOk(sentences + [x], maxChars, GreedyStep(st, x, maxChars).0, GreedyStep(st, x, maxChars).1)
  {
    if TotalLength(st.1) + |x| > maxChars && st.1 != [] {
      StepClose(sentences, maxChars, st.0, st.1, x);
    } else {
      StepExtend(sentences, maxChars, st.0, st.1, x);
    }
  }

  lemma {:induction false} GreedyStateOk(sentences: seq<string>, maxChars: int)
    ensures StateOk(sentences, maxChars, GreedyState(sentences, maxChars).0, GreedyState(sentences, maxChars).1)
    decreases |sentences|
  {
    if sentences != [] {
      var init := sentences[..|sentences| - 1];
      var x := sentences[|sentences| - 1];
      var st := GreedyState(init, maxChars);
      GreedyStateOk(init, maxChars);
      StepOk(init, maxChars, st, x);
      assert init + [x] == sentences;
      assert GreedyState(sentences, maxChars) == GreedyStep(st, x, maxChars);
    }
  }

  /** Closing the last open group at the end yields a greedy packing. */
  lemma FinishOk(sentences: seq<string>, maxChars: int, closed: seq<seq<string>>, open: seq<string>)
    requires StateOk(sentences, maxChars, closed, open)
    ensures IsGreedyPacking(sentences, maxChars, if open == [] then closed else closed + [open])
  {
    if open != [] {
      FlattenAppend(closed, [open]);
      FlattenSingleton(open);
      GroupsSnoc(closed, maxChars, open);
    }
  }

  /**
   * `group_sentences`: returns the joined groups and, beside them, the
   * sentences each group was joined from.
   */
  method GroupSentences(sentences: seq<string>, maxChars: int) returns (groups: seq<string>, packs: seq<seq<string>>)
    ensures |groups| == |packs|
    ensures forall k :: 0 <= k < |packs| ==> groups[k] == Join(" ", packs[k])
    ensures IsGreedyPacking(sentences, maxChars, packs)
    ensures |sentences| == 0 <==> |groups| == 0
  {
    groups, packs := [], [];
    var current: seq<string> := [];
    var currentLength := 0;
    for i := 0 to |sentences|
      invariant Joined(groups, packs)
      invariant (packs, current) == GreedyState(sentences[..i], maxChars)
      invariant currentLength == TotalLength(current)
    {
      var sentence := sentences[i];
      GreedyStatePrefix(sentences, maxChars, i);
      if currentLength + |sentence| > maxChars && current != [] {
        JoinedSnoc(groups, packs, current);
        groups := groups + [Join(" ", current)];
        packs := packs + [current];
        current := [];
        currentLength := 0;
      }
      TotalLengthSnoc(current, sentence);
      current := current + [sentence];
      currentLength := currentLength + |sentence|;
    }
    assert sentences[..|sentences|] == sentences;
    GreedyStateOk(sentences, maxChars);
    FinishOk(sentences, maxChars, packs, current);
    if current != [] {
      JoinedSnoc(groups, packs, current);
      groups := groups + [Join(" ", current)];
      packs := packs + [current];
    }
  }

  /** A longer prefix never has a smaller total length. */
  lemma {:induction false} TotalLengthPrefix(ss: seq<string>, j: nat)
    requires j <= |ss|
    ensures TotalLength(ss[..j]) <= TotalLength(ss)
    decreases |ss|
  {
    if j < |ss| {
      var init := ss[..|ss| - 1];
      assert init[..j] == ss[..j];
      TotalLengthPrefix(init, j);
    } else {
      assert ss[..j] == ss;
    }
  }

  /** The packs after the first one are a greedy packing of the remaining sentences. */
  lemma GreedyTail(sentences: seq<string>, maxChars: int, packs: seq<seq<string>>)
    requires IsGreedyPacking(sentences, maxChars, packs) && |packs| > 0
    ensures sentences == packs[0] + Flatten(packs[1..])
    ensures IsGreedyPacking(sentences[|packs[0]|..], maxChars, packs[1..])
  {
    var tail := packs[1..];
    assert packs == [packs[0]] + tail;
    FlattenCons(packs[0], tail);
    assert sentences[|packs[0]|..] == Flatten(tail);
    forall k | 0 <= k < |tail|
      ensures Fits(tail[k], maxChars)
    {
      assert tail[k] == packs[k + 1];
    }
    forall k | 0 <= k < |tail| - 1
      ensures Overflows(tail[k], tail[k + 1], maxChars)
    {
      assert tail[k] == packs[k + 1] && tail[k + 1] == packs[k + 2];
    }
  }

  /** A first group that stops before the end was closed by the sentence right after it. */
  lemma ClosedByNext(sentences: seq<string>, maxChars: int, p: seq<seq<string>>)
    requires IsGreedyPacking(sentences, maxChars, p) && |p| > 0 && |p[0]| < |sentences|
    ensures sentences[..|p[0]|] == p[0]
    ensures TotalLength(p[0]) + |sentences[|p[0]|]| > maxChars
  {
    GreedyTail(sentences, maxChars, p);
    assert |Flatten(p[1..])| > 0;
    assert p[1..] != [];
    FlattenCons(p[1], p[2..]);
    assert p[1..] == [p[1]] + p[2..];
    assert sentences[|p[0]|] == p[1][0];
  }

  /** A prefix plus the sentence after it is at most the whole group's length. */
  lemma PrefixWithin(b: seq<string>, j: nat)
    requires j < |b|
    ensures TotalLength(b[..j]) + |b[j]| <= TotalLength(b)
  {
    assert b[..j + 1] == b[..j] + [b[j]];
    TotalLengthSnoc(b[..j], b[j]);
    TotalLengthPrefix(b, j + 1);
  }

  /**
   * A first group cannot be shorter than another greedy packing's first group:
   * the sentence that closed it would fit into the longer one.
   */
  lemma FirstGroupNotShorter(sentences: seq<string>, maxChars: int, p1: seq<seq<string>>, p2: seq<seq<string>>)
    requires IsGreedyPacking(sentences, maxChars, p1) && IsGreedyPacking(sentences, maxChars, p2)
    requires |p1| > 0 && |p2| > 0
    ensures |p1[0]| >= |p2[0]|
  {
    var a, b := p1[0], p2[0];
    if |a| < |b| {
      GreedyTail(sentences, maxChars, p2);
      ClosedByNext(sentences, maxChars, p1);
      assert b[..|a|] == a && b[|a|] == sentences[|a|];
      PrefixWithin(b, |a|);
      assert false;
    }
  }

  /** There is only one greedy packing: `group_sentences` computes it. */
  lemma {:induction false} GreedyPackingUnique(sentences: seq<string>, maxChars: int, p1: seq<seq<string>>, p2: seq<seq<string>>)
    requires IsGreedyPacking(sentences, maxChars, p1) && IsGreedyPacking(sentences, maxChars, p2)
    ensures p1 == p2
    decreases |sentences|
  {
    if p1 == [] || p2 == [] {
      if p1 != [] {
        GreedyTail(sentences, maxChars, p1);
      } else if p2 != [] {
        GreedyTail(sentences, maxChars, p2);
      }
    } else {
      FirstGroupNotShorter(sentences, maxChars, p1, p2);
      FirstGroupNotShorter(sentences, maxChars, p2, p1);
      GreedyTail(sentences, maxChars, p1);
      GreedyTail(sentences, maxChars, p2);
      assert p1[0] == sentences[..|p1[0]|] == p2[0];
      GreedyPackingUnique(sentences[|p1[0]|..], maxChars, p1[1..], p2[1..]);
      assert p1 == [p1[0]] + p1[1..];
      assert p2 == [p2[0]] + p2[1..];
    }
  }
}
