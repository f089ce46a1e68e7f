/**
 The write ring when copies to the user may fail: `write_persistence_read` then lowers
 `used_buf` but leaves `first_buf` behind.
 */
module Drift {
  import opened Bytes
  import opened Rings
  import W = WritePersistence

  datatype Op = Add(msg: seq<byte>) | Read(copied: bool) | Release

  function Apply(d: Device, op: Op): (r: Device)
    requires d.Shape()
    ensures r.Shape() && r.Size() == d.Size() && r.working == d.working
  {
    match op
    case Add(msg) => W.AddMessage(d, msg)
    case Read(copied) => W.Read(d, copied)
    case Release => d.Release()
  }

  /** Any use of the ring from its initial state, reading only when `poll` reports input. */
  ghost predicate IsRun(ds: seq<Device>, ops: seq<Op>) {
    && |ds| == |ops| + 1
    && ds[0].Shape() && ds[0].working && ds[0].first == ds[0].current == ds[0].used == 0
    && forall n :: 0 <= n < |ops| ==>
         && ds[n].Shape()
         && (ops[n].Read? ==> ds[n].Readable())
         && ds[n + 1] == Apply(ds[n], ops[n])
  }

  /** The failed reads among the first `n` operations since the last release before `n`. */
  function Failures(ops: seq<Op>, n: nat): nat
    requires n <= |ops|
  {
    if n == 0 then 0 else FailuresAfter(Failures(ops, n - 1), ops[n - 1])
  }

  function FailuresAfter(f: nat, op: Op): nat {
    match op
    case Add(_) => f
    case Read(copied) => if copied then f else f + 1
    case Release => 0
  }

  /** The relation between the three indices of an undisturbed ring. */
  predicate Aligned(d: Device)
    requires d.Shape()
  {
    (d.first + d.used) % d.Size() == d.current
  }

  lemma ModCancel(x: int, f: nat, n: nat)
    requires n > 0
    ensures (x + f) % n == x % n <==> f % n == 0
  {
    ModAddLeft(x + f, -x, n);
    ModAddLeft(x, -x, n);
    ModAddLeft(f, x, n);
  }

  /** The head is `f` places behind where the other two indices put it. */
  predicate Behind(d: Device, f: nat)
    requires d.Shape()
  {
    0 <= d.used <= d.Size() && (d.first + d.used + f) % d.Size() == d.current
  }

  lemma BehindAfterAdd(d: Device, d': Device, f: nat)
    requires d.Shape() && d'.Shape() && Behind(d, f) && !d.Full()
    requires d'.Size() == d.Size() && d'.first == d.first
    requires d'.used == d.used + 1 && d'.current == (d.current + 1) % d.Size()
    ensures Behind(d', f)
  {
    ModSucc(d.first + d.used + f, d.Size());
  }

  lemma AddKeepsDistance(d: Device, msg: seq<byte>, f: nat)
    requires d.Shape() && Behind(d, f)
    ensures Behind(W.AddMessage(d, msg), f)
  {
    hide Behind, W.SlotOf;
    if !d.Full() {
      BehindAfterAdd(d, W.AddMessage(d, msg), f);
    }
  }

  lemma HeadMovesOn(first: int, used: int, f: int, n: nat)
    requires n > 0
    ensures ((first + 1) % n + (used - 1) + f) % n == (first + used + f) % n
  {
    ModAddLeft(first + 1, used - 1 + f, n);
  }

  lemma BehindAsBefore(d: Device, d': Device, f: nat)
    requires d.Shape() && d'.Shape() && Behind(d, f) && d.Readable()
    requires d'.Size() == d.Size() && d'.current == d.current
    requires d'.used == d.used - 1 && d'.first == (d.first + 1) % d.Size()
    ensures Behind(d', f)
  {
    HeadMovesOn(d.first, d.used, f, d.Size());
  }

  lemma ReadKeepsDistance(d: Device, f: nat)
    requires d.Shape() && d.working && Behind(d, f) && d.Readable()
    ensures Behind(W.Read(d, true), f)
  {
    hide Behind;
    BehindAsBefore(d, W.Read(d, true), f);
  }

  lemma FailedReadWidensDistance(d: Device, f: nat)
    requires d.Shape() && d.working && Behind(d, f) && d.Readable()
    ensures Behind(W.Read(d, false), f + 1)
  {
    var d' := W.Read(d, false);
    assert d'.first + d'.used + (f + 1) == d.first + d.used + f;
  }

  lemma ReleaseAligns(d: Device)
    requires d.Shape()
    ensures Behind(d.Release(), 0)
  {
  }

  lemma StepDistance(d: Device, op: Op, f: nat)
    requires d.Shape() && d.working && Behind(d, f) && (op.Read? ==> d.Readable())
    ensures Behind(Apply(d, op), FailuresAfter(f, op))
  {
    match op {
      case Add(msg) => AddKeepsDistance(d, msg, f);
      case Read(true) => ReadKeepsDistance(d, f);
      case Read(false) => FailedReadWidensDistance(d, f);
      case Release => ReleaseAligns(d);
    }
  }

  lemma AlignedIff(d: Device, f: nat)
    requires d.Shape() && Behind(d, f)
    ensures Aligned(d) <==> f % d.Size() == 0
  {
    ModCancel(d.first + d.used, f, d.Size());
  }

  lemma {:induction false} DistanceAlong(ds: seq<Device>, ops: seq<Op>, n: nat)
    requires IsRun(ds, ops) && n <= |ops|
    ensures ds[n].Shape() && ds[n].Size() == ds[0].Size() && ds[n].working
    ensures Behind(ds[n], Failures(ops, n))
  {
    if n == 0 {
      ReleaseAligns(ds[0]);
    } else {
      DistanceAlong(ds, ops, n - 1);
      StepDistance(ds[n - 1], ops[n - 1], Failures(ops, n - 1));
      assert ds[n - 1 + 1] == Apply(ds[n - 1], ops[n - 1]);
    }
  }

  /**
   In every run, failed copies included, the head is exactly as many places behind as
   reads failed since the last release. So the indices agree if and only if that
   number is a multiple of the ring's size.
   */
  lemma DriftIsExact(ds: seq<Device>, ops: seq<Op>, n: nat)
    requires IsRun(ds, ops) && n <= |ops|
    ensures ds[n].Shape() && Behind(ds[n], Failures(ops, n))
    ensures Aligned(ds[n]) <==> Failures(ops, n) % ds[n].Size() == 0
  {
    DistanceAlong(ds, ops, n);
    AlignedIff(ds[n], Failures(ops, n));
  }

  /** One failed read is enough to break the relation on any ring of more than one slot. */
  lemma FailedReadMisaligns(d: Device)
    requires d.Shape() && d.working && d.Size() > 1 && Aligned(d)
    ensures !Aligned(W.Read(d, false))
  {
    ModCancel(d.first + d.used - 1, 1, d.Size());
  }
}
