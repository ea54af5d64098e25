/**
  * `generateLayout`: random boards, retried with a higher chance of empty
  * cells while the board drawn is already complete. The random numbers are
  * an input: a finite list of draws consumed from the front.
  */
module Generator {
  import opened Wrappers
  import opened Layouts

  /** One value of `random(10)`, that is `floor(Math.random() * 10)`. */
  type Draw = d: int | 0 <= d <= 9

  /** The default argument of `generateLayout`. */
  const DefaultProbability: int := 3

  /** A cell is empty when its draw is at most `probability`, frozen otherwise. */
  function CellFor(draw: Draw, probability: int): CellType
  {
    if draw <= probability then Empty else Frozen
  }

  /** One attempt: the board built and the draws left over for later. */
  datatype Attempt = Attempt(layout: Layout, rest: seq<Draw>)

  /**
    * One attempt of `generateLayout`: a width draw, a height draw, then one
    * draw per cell. None when the draws run out first.
    */
  function Candidate(draws: seq<Draw>, probability: int): (r: Option<Attempt>)
    ensures r.None? <==> |draws| < 2 || |draws| < 2 + (draws[0] as int) * (draws[1] as int)
    ensures r.Some? ==>
      var l := r.value.layout;
      l.width == draws[0] && l.height == draws[1] && WellFormed(l)
      && 2 + |l.cells| <= |draws| && r.value.rest == draws[2 + |l.cells|..]
      && forall i :: 0 <= i < |l.cells| ==>
           l.cells[i] != Full && (l.cells[i] == Empty <==> draws[2 + i] <= probability)
  {
    if |draws| < 2 || |draws| < 2 + (draws[0] as int) * (draws[1] as int) then None
    else
      var w: nat, h: nat := draws[0], draws[1];
      var cells := seq(w * h, i requires 0 <= i < w * h => CellFor(draws[2 + i], probability));
      Some(Attempt(Layout(w, h, cells), draws[2 + w * h..]))
  }

  /** What every board handed out by the generator satisfies. */
  predicate Generated(l: Layout)
  {
    WellFormed(l) && 1 <= l.width <= 9 && 1 <= l.height <= 9
    && !CompletedLayout(l)
    && forall i :: 0 <= i < |l.cells| ==> l.cells[i] != Full
  }

  /**
    * `generateLayout(probability)`: the first attempt that is not already
    * complete; each rejected attempt raises `probability` by one. None when
    * the draws run out before an attempt is accepted.
    */
  function GenerateLayout(draws: seq<Draw>, probability: int): (r: Option<Layout>)
    decreases |draws|
    ensures r.Some? ==> Generated(r.value)
  {
    match Candidate(draws, probability)
    case None => None
    case Some(Attempt(l, rest)) =>
      if CompletedLayout(l) then GenerateLayout(rest, probability + 1)
      else
        IncompleteHasCells(l); Some(l)
  }

  /**
    * Attempt `k` of a chain starts at `offs[k]`, runs at `probability + k`,
    * is complete (so rejected), and leaves over exactly the draws attempt
    * `k + 1` starts on.
    */
  ghost predicate Rejected(draws: seq<Draw>, probability: int, offs: seq<nat>, k: int)
    requires 0 <= k < |offs| - 1
  {
    offs[k] <= |draws| && offs[k + 1] <= |draws|
    && var a := Candidate(draws[offs[k]..], probability + k);
    a.Some? && CompletedLayout(a.value.layout) && draws[offs[k + 1]..] == a.value.rest
  }

  /**
    * `offs` lists where in the draws the attempts of one call start: the
    * first at 0, each one before the last rejected, each retry one step
    * higher in probability.
    */
  ghost predicate AttemptChain(draws: seq<Draw>, probability: int, offs: seq<nat>)
  {
    |offs| >= 1 && offs[0] == 0 && offs[|offs| - 1] <= |draws|
    && forall k :: 0 <= k < |offs| - 1 ==> Rejected(draws, probability, offs, k)
  }

  /** The offsets of a chain on `draws[shift..]`, read as offsets into `draws`. */
  function Shifted(shift: nat, tail: seq<nat>): (offs: seq<nat>)
    ensures |offs| == |tail| + 1 && offs[0] == 0
    ensures forall k :: 1 <= k < |offs| ==> offs[k] == shift + tail[k - 1]
  {
    [0] + seq(|tail|, i requires 0 <= i < |tail| => shift + tail[i])
  }

  /** A rejection in a chain on the leftover draws is one step later in the whole chain. */
  lemma ShiftRejected(draws: seq<Draw>, probability: int, shift: nat, tail: seq<nat>, k: int)
    requires shift <= |draws| && 1 <= k < |tail|
    requires Rejected(draws[shift..], probability + 1, tail, k - 1)
    ensures Rejected(draws, probability, Shifted(shift, tail), k)
  {
    var offs := Shifted(shift, tail);
    assert draws[shift..][tail[k - 1]..] == draws[offs[k]..];
    assert draws[shift..][tail[k]..] == draws[offs[k + 1]..];
    assert probability + 1 + (k - 1) == probability + k;
  }

  /** The last attempt of the chain `offs` is not complete, and its board is `l`. */
  ghost predicate EndsWith(draws: seq<Draw>, probability: int, offs: seq<nat>, l: Layout)
    requires |offs| >= 1 && offs[|offs| - 1] <= |draws|
  {
    var last := Candidate(draws[offs[|offs| - 1]..], probability + |offs| - 1);
    last.Some? && !CompletedLayout(last.value.layout) && last.value.layout == l
  }

  /**
    * A rejected first attempt followed by a chain on its leftover draws is
    * a chain on all the draws, ending with the same board.
    */
  lemma ExtendChain(draws: seq<Draw>, probability: int, shift: nat, tail: seq<nat>, l: Layout)
      returns (offs: seq<nat>)
    requires shift <= |draws|
    requires var a := Candidate(draws, probability);
      a.Some? && CompletedLayout(a.value.layout) && a.value.rest == draws[shift..]
    requires AttemptChain(draws[shift..], probability + 1, tail)
    requires EndsWith(draws[shift..], probability + 1, tail, l)
    ensures AttemptChain(draws, probability, offs) && EndsWith(draws, probability, offs, l)
  {
    offs := Shifted(shift, tail);
    forall k | 0 <= k < |offs| - 1
      ensures Rejected(draws, probability, offs, k)
    {
      if k == 0 {
        FirstRejected(draws, probability, shift, tail);
      } else {
        ShiftRejected(draws, probability, shift, tail, k);
      }
    }
    assert offs[|offs| - 1] == shift + tail[|tail| - 1] <= |draws|;
    ShiftEnds(draws, probability, shift, tail, l);
  }

  /** The first attempt of the longer chain is the rejected one. */
  lemma FirstRejected(draws: seq<Draw>, probability: int, shift: nat, tail: seq<nat>)
    requires shift <= |draws| && |tail| >= 1 && tail[0] == 0
    requires var a := Candidate(draws, probability);
      a.Some? && CompletedLayout(a.value.layout) && a.value.rest == draws[shift..]
    ensures Rejected(draws, probability, Shifted(shift, tail), 0)
  {
    assert draws[0..] == draws;
    assert draws[shift + 0..] == draws[shift..];
  }

  /** The last attempt of the shorter chain is the last attempt of the longer one. */
  lemma ShiftEnds(draws: seq<Draw>, probability: int, shift: nat, tail: seq<nat>, l: Layout)
    requires shift <= |draws| && |tail| >= 1 && tail[|tail| - 1] <= |draws| - shift
    requires EndsWith(draws[shift..], probability + 1, tail, l)
    ensures EndsWith(draws, probability, Shifted(shift, tail), l)
  {
    var offs := Shifted(shift, tail);
    assert draws[offs[|offs| - 1]..] == draws[shift..][tail[|tail| - 1]..];
    assert probability + |offs| - 1 == probability + 1 + |tail| - 1;
  }

  /**
    * The board returned is the first attempt that is not complete: every
    * earlier attempt was complete, each retry raised the probability by
    * exactly one and started on the draws the previous attempt left over.
    */
  lemma {:induction false} GeneratedIsFirstIncomplete(draws: seq<Draw>, probability: int)
      returns (offs: seq<nat>)
    requires GenerateLayout(draws, probability).Some?
    ensures AttemptChain(draws, probability, offs)
    ensures EndsWith(draws, probability, offs, GenerateLayout(draws, probability).value)
    decreases |draws|
  {
    var a := Candidate(draws, probability).value;
    if CompletedLayout(a.layout) {
      RetryUnfolds(draws, probability);
      var tail := GeneratedIsFirstIncomplete(a.rest, probability + 1);
      offs := ExtendChain(draws, probability, 2 + |a.layout.cells|, tail,
                          GenerateLayout(a.rest, probability + 1).value);
    } else {
      offs := [0];
      assert draws[0..] == draws;
    }
  }

  /**
    * Conversely, whenever the draws hold a chain of complete attempts that
    * ends in an incomplete one, generation returns that board: from the
    * attempt at offset `offs[j]` on, the result is the chain's last layout.
    */
  lemma {:induction false} ChainFromAttempt(draws: seq<Draw>, probability: int, offs: seq<nat>,
                                            l: Layout, j: nat)
    requires AttemptChain(draws, probability, offs) && EndsWith(draws, probability, offs, l)
    requires j < |offs|
    ensures offs[j] <= |draws|
    ensures GenerateLayout(draws[offs[j]..], probability + j) == Some(l)
    decreases |offs| - j
  {
    if j < |offs| - 1 {
      var next := j + 1;
      ChainFromAttempt(draws, probability, offs, l, next);
      RejectedRetries(draws, probability, offs, j, next);
    } else {
      assert j == |offs| - 1;
      LastAttemptAccepted(draws, probability, offs, l);
    }
  }

  /**
    * The converse of `GeneratedIsFirstIncomplete`: a chain from the first
    * draw whose attempts are complete up to an incomplete last one makes
    * generation return that last board.
    */
  lemma FirstIncompleteIsGenerated(draws: seq<Draw>, probability: int, offs: seq<nat>, l: Layout)
    requires AttemptChain(draws, probability, offs) && EndsWith(draws, probability, offs, l)
    ensures GenerateLayout(draws, probability) == Some(l)
  {
    ChainFromAttempt(draws, probability, offs, l, 0);
    assert draws[0..] == draws;
  }

  /** The last attempt of a chain is not complete, so it is the board generated. */
  lemma LastAttemptAccepted(draws: seq<Draw>, probability: int, offs: seq<nat>, l: Layout)
    requires |offs| >= 1 && offs[|offs| - 1] <= |draws| && EndsWith(draws, probability, offs, l)
    ensures GenerateLayout(draws[offs[|offs| - 1]..], probability + (|offs| - 1)) == Some(l)
  {
  }

  /** A rejected attempt of a chain hands generation over to the next one. */
  lemma RejectedRetries(draws: seq<Draw>, probability: int, offs: seq<nat>, j: nat, next: nat)
    requires next == j + 1 && next < |offs| && Rejected(draws, probability, offs, j)
    ensures offs[j] <= |draws| && offs[next] <= |draws|
    ensures GenerateLayout(draws[offs[j]..], probability + j)
         == GenerateLayout(draws[offs[next]..], probability + next)
  {
    var here, there := draws[offs[j]..], draws[offs[next]..];
    RetryFrom(here, probability + j, there, probability + next);
    assert GenerateLayout(here, probability + j) == GenerateLayout(there, probability + next);
  }

  /** `RetryUnfolds`, with the leftover draws and the raised probability named by the caller. */
  lemma RetryFrom(draws: seq<Draw>, probability: int, rest: seq<Draw>, raised: int)
    requires Candidate(draws, probability).Some?
    requires CompletedLayout(Candidate(draws, probability).value.layout)
    requires Candidate(draws, probability).value.rest == rest && raised == probability + 1
    ensures GenerateLayout(draws, probability) == GenerateLayout(rest, raised)
  {
    RetryUnfolds(draws, probability);
  }

  /** A complete attempt is rejected: generation goes on with the leftover draws. */
  lemma RetryUnfolds(draws: seq<Draw>, probability: int)
    requires Candidate(draws, probability).Some?
    requires CompletedLayout(Candidate(draws, probability).value.layout)
    ensures GenerateLayout(draws, probability)
         == GenerateLayout(Candidate(draws, probability).value.rest, probability + 1)
  {
  }

  /**
    * The retry loop stops: from probability 9 on every draw gives an empty
    * cell, so any attempt with a non-zero width and height is accepted.
    */
  lemma CertainProbabilityAccepts(draws: seq<Draw>, probability: int)
    requires probability >= 9
    requires |draws| >= 2 && draws[0] >= 1 && draws[1] >= 1
    requires |draws| >= 2 + (draws[0] as int) * (draws[1] as int)
    ensures GenerateLayout(draws, probability).Some?
    ensures GenerateLayout(draws, probability).value == Candidate(draws, probability).value.layout
  {
    var l := Candidate(draws, probability).value.layout;
    assert l.cells[0] == Empty;
    CompletedIff(l);
  }

  /**
    * A zero-wide or zero-high attempt is always complete, whatever the
    * probability, so it is always rejected: the retry is not bounded by the
    * probability alone.
    */
  lemma ZeroSizedAttemptRetries(draws: seq<Draw>, probability: int)
    requires |draws| >= 2 && (draws[0] == 0 || draws[1] == 0)
    ensures GenerateLayout(draws, probability) == GenerateLayout(draws[2..], probability + 1)
  {
    assert (draws[0] as int) * (draws[1] as int) == 0;
    var a := Candidate(draws, probability).value;
    assert |a.layout.cells| == 0 && a.rest == draws[2..];
    ZeroSizedIsComplete(a.layout);
  }
}
