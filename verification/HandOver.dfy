/** Which buffers a leapfrog simulator writes to: the system that a step hands out is scratch two steps later. */
module HandOver {
  import opened Options

  /** The buffers that the simulator holds between steps. */
  datatype Held = Held(previous: nat, scratch: nat)

  /** The buffer that a step fills: the caller's, if there is one. */
  function Written(h: Held, supplied: Option<nat>): nat {
    if supplied.Some? then supplied.value else h.scratch
  }

  /** After a step, what it filled is the current system, and the one before it is scratch. */
  function AfterStep(h: Held, supplied: Option<nat>): Held { Held(Written(h, supplied), h.previous) }

  function HeldAfter(h: Held, supplies: seq<Option<nat>>, k: nat): Held
    requires k <= |supplies|
  {
    if k == 0 then h else AfterStep(HeldAfter(h, supplies, k - 1), supplies[k - 1])
  }

  /** The buffer that step `k` fills. */
  function WrittenIn(h: Held, supplies: seq<Option<nat>>, k: nat): nat
    requires k < |supplies|
  {
    Written(HeldAfter(h, supplies, k), supplies[k])
  }

  ghost predicate Holds(h: Held, b: nat) { b == h.previous || b == h.scratch }

  /** The pool never supplies a buffer that the simulator still holds. */
  ghost predicate FromPool(h: Held, supplies: seq<Option<nat>>) {
    && h.previous != h.scratch
    && forall k :: 0 <= k < |supplies| && supplies[k].Some? ==> !Holds(HeldAfter(h, supplies, k), supplies[k].value)
  }

  /** Buffer `b` is not supplied again between steps `k` and `m`. */
  ghost predicate NotSupplied(supplies: seq<Option<nat>>, b: nat, k: nat, m: nat) {
    forall l :: k <= l < m && l < |supplies| ==> supplies[l] != Some(b)
  }

  /** A buffer that is neither held nor supplied is not written. */
  lemma {:induction false} GoneStaysGone(h: Held, supplies: seq<Option<nat>>, b: nat, k: nat, m: nat)
    requires k <= m <= |supplies| && !Holds(HeldAfter(h, supplies, k), b) && NotSupplied(supplies, b, k, |supplies|)
    ensures !Holds(HeldAfter(h, supplies, m), b)
    ensures m < |supplies| ==> WrittenIn(h, supplies, m) != b
  {
    if k < m {
      GoneStaysGone(h, supplies, b, k, m - 1);
    }
  }

  /** What the simulator holds after the step that hands out `b`, and after the next one. */
  lemma HandedOut(h: Held, supplies: seq<Option<nat>>, b: nat, k: nat)
    requires FromPool(h, supplies) && k < |supplies| && supplies[k] == Some(b)
    requires NotSupplied(supplies, b, k + 1, |supplies|)
    ensures HeldAfter(h, supplies, k + 1).previous == b != HeldAfter(h, supplies, k + 1).scratch
    ensures k + 1 < |supplies| ==>
      && WrittenIn(h, supplies, k + 1) != b
      && HeldAfter(h, supplies, k + 2).scratch == b != HeldAfter(h, supplies, k + 2).previous
  {
  }

  /** The particle data that step `k` hands out in `b` is written again, before the pool supplies `b` anew,
      if and only if there is a step `k + 2` without a buffer of its own. */
  lemma OverwrittenTwoStepsLater(h: Held, supplies: seq<Option<nat>>, b: nat, k: nat)
    requires FromPool(h, supplies) && k < |supplies| && supplies[k] == Some(b)
    requires NotSupplied(supplies, b, k + 1, |supplies|)
    ensures (exists m :: k < m < |supplies| && WrittenIn(h, supplies, m) == b) <==>
      k + 2 < |supplies| && supplies[k + 2].None?
  {
    HandedOut(h, supplies, b, k);
    if k + 2 < |supplies| {
      if supplies[k + 2].None? {
        assert WrittenIn(h, supplies, k + 2) == b;
      } else {
        forall m | k < m < |supplies| ensures WrittenIn(h, supplies, m) != b {
          if m > k + 2 {
            GoneStaysGone(h, supplies, b, k + 3, m);
          }
        }
      }
    }
  }
}
