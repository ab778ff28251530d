// Atomic file effects applied in order, with a stop possible after any of them,
// and pointer files replaced through a temporary and a rename.
module CrashSteps {
  import opened Framing

  datatype Pointer = Highest | Current | Previous

  // A temporary holds None while it is only partly written.
  datatype Files<V> = Files(values: map<Pointer, V>, temps: map<Pointer, Option<V>>)

  datatype PointerEffect<V> = DropTemp(p: Pointer) | TempPart(p: Pointer) | TempWhole(p: Pointer, v: V) | Commit(p: Pointer)

  function ApplyPointer<V>(f: Files<V>, e: PointerEffect<V>): Files<V> {
    match e
    case DropTemp(p) => f.(temps := f.temps - {p})
    case TempPart(p) => f.(temps := f.temps[p := None])
    case TempWhole(p, v) => f.(temps := f.temps[p := Some(v)])
    case Commit(p) =>
      if p !in f.temps then f
      else if f.temps[p].Some? then Files(f.values[p := f.temps[p].value], f.temps - {p})
      else Files(f.values - {p}, f.temps - {p})
  }

  /** writeSequencePointer and writePointer: remove the temporary, write it, rename it. */
  function WritePointer<V>(p: Pointer, v: V): seq<PointerEffect<V>> {
    [DropTemp(p), TempPart(p), TempWhole(p, v), Commit(p)]
  }

  function WritePointers<V>(writes: seq<(Pointer, V)>): (es: seq<PointerEffect<V>>)
    ensures |es| == 4 * |writes|
  {
    if writes == [] then [] else WritePointers(writes[..|writes| - 1]) + WritePointer(writes[|writes| - 1].0, writes[|writes| - 1].1)
  }

  /** The state after the first k effects. */
  function PointersAfter<V>(f: Files<V>, es: seq<PointerEffect<V>>, k: nat): Files<V>
    requires k <= |es|
  {
    if k == 0 then f else ApplyPointer(PointersAfter(f, es, k - 1), es[k - 1])
  }

  /** The pointer values once the first `done` writes have been renamed into place. */
  function Written<V>(values: map<Pointer, V>, writes: seq<(Pointer, V)>, done: nat): map<Pointer, V>
    requires done <= |writes|
  {
    if done == 0 then values else Written(values, writes, done - 1)[writes[done - 1].0 := writes[done - 1].1]
  }

  lemma {:induction false} WriteAt<V>(writes: seq<(Pointer, V)>, i: nat, j: nat)
    requires i < |writes| && j < 4
    ensures 4 * i + j < |WritePointers(writes)|
    ensures WritePointers(writes)[4 * i + j] == WritePointer(writes[i].0, writes[i].1)[j]
  {
    if i < |writes| - 1 { WriteAt(writes[..|writes| - 1], i, j); }
  }

  function Value<V>(values: map<Pointer, V>, p: Pointer): Option<V> {
    if p in values then Some(values[p]) else None
  }

  /** Wherever the writes stop, every pointer has its old value or a complete new one, in order. */
  lemma {:induction false} WritesAreAtomic<V>(f: Files<V>, writes: seq<(Pointer, V)>, k: nat)
    requires k <= 4 * |writes|
    ensures var now := PointersAfter(f, WritePointers(writes), k);
            && now.values == Written(f.values, writes, k / 4)
            && (k % 4 == 0 && k > 0 ==> writes[k / 4 - 1].0 !in now.temps)
            && (k % 4 == 1 ==> writes[k / 4].0 !in now.temps)
            && (k % 4 == 2 ==> writes[k / 4].0 in now.temps)
            && (k % 4 == 3 ==> writes[k / 4].0 in now.temps && now.temps[writes[k / 4].0] == Some(writes[k / 4].1))
  {
    if k > 0 {
      WritesAreAtomic(f, writes, k - 1);
      WriteAt(writes, (k - 1) / 4, (k - 1) % 4);
    }
  }

  // ----------------------------------------------------- versions and staging

  // A version or staging directory; Partial when some of its files are missing or cut short.
  datatype Slot<T> = Absent | Partial | Whole(content: T)

  datatype Root<K(==), T> = Root(versions: map<K, Slot<T>>, staging: map<K, Slot<T>>, files: Files<K>) {
    function Version(v: K): Slot<T> {
      if v in versions then versions[v] else Absent
    }

    function Staged(v: K): Slot<T> {
      if v in staging then staging[v] else Absent
    }

    function At(p: Pointer): Option<K> {
      Value(files.values, p)
    }

    /** What the current pointer leads to. */
    function Active(): Option<T> {
      if At(Current).Some? && Version(At(Current).value).Whole? then Some(Version(At(Current).value).content) else None
    }
  }

  datatype Effect<K, T> =
    | ClearStaging(v: K) | StagePart(v: K) | StageWhole(v: K, t: T)
    | TearVersion(v: K) | ClearVersion(v: K) | Promote(v: K)
    | Point(e: PointerEffect<K>)

  function Apply<K, T>(d: Root<K, T>, e: Effect<K, T>): Root<K, T> {
    match e
    case ClearStaging(v) => d.(staging := d.staging - {v})
    case StagePart(v) => d.(staging := d.staging[v := Partial])
    case StageWhole(v, t) => d.(staging := d.staging[v := Whole(t)])
    case TearVersion(v) => if v in d.versions then d.(versions := d.versions[v := Partial]) else d
    case ClearVersion(v) => d.(versions := d.versions - {v})
    case Promote(v) => d.(versions := d.versions[v := d.Staged(v)], staging := d.staging - {v})
    case Point(pe) => d.(files := ApplyPointer(d.files, pe))
  }

  /** The directory after the first k effects of a plan. */
  function After<K, T>(d: Root<K, T>, plan: seq<Effect<K, T>>, k: nat): Root<K, T>
    requires k <= |plan|
  {
    if k == 0 then d else Apply(After(d, plan, k - 1), plan[k - 1])
  }

  function Points<K, T>(es: seq<PointerEffect<K>>): (plan: seq<Effect<K, T>>)
    ensures |plan| == |es| && forall i | 0 <= i < |es| :: plan[i] == Point(es[i])
  {
    seq(|es|, i requires 0 <= i < |es| => Point(es[i]))
  }

  lemma {:induction false} PointsPiece<K, T>(writes: seq<(Pointer, K)>, i: nat)
    requires i < |writes|
    ensures var plan: seq<Effect<K, T>> := Points(WritePointers(writes));
            plan[4 * i..4 * i + 4] == Points(WritePointer(writes[i].0, writes[i].1))
  {
    hide WritePointers;
    var plan: seq<Effect<K, T>>, piece: seq<Effect<K, T>> :=
      Points(WritePointers(writes)), Points(WritePointer(writes[i].0, writes[i].1));
    forall j: nat | j < 4
      ensures plan[4 * i + j] == piece[j]
    {
      WriteAt(writes, i, j);
    }
  }

  // Staging and promotion take six effects; pointer writes follow.
  const PROMOTED: nat := 6

  function PromotePlan<K, T>(v: K, t: T): (plan: seq<Effect<K, T>>)
    ensures |plan| == PROMOTED
  {
    [ClearStaging(v), StagePart(v), StageWhole(v, t), TearVersion(v), ClearVersion(v), Promote(v)]
  }

  lemma PromoteParts<K, T>(v: K, t: T, es: seq<PointerEffect<K>>)
    ensures var plan := PromotePlan(v, t) + Points(es);
            && plan[0..1] == [ClearStaging(v)] && plan[1..2] == [StagePart(v)] && plan[2..3] == [StageWhole(v, t)]
            && plan[3..5] == [TearVersion(v), ClearVersion(v)] && plan[5..6] == [Promote(v)]
            && plan[..PROMOTED] == PromotePlan(v, t)
  {}

  /** Every stop while promoting and pointing: nothing promoted, the version gone, or all of it in place. */
  lemma {:induction false} PromotionStops<K, T>(d: Root<K, T>, v: K, t: T, es: seq<PointerEffect<K>>, k: nat)
    requires k <= PROMOTED + |es|
    ensures var now := After(d, PromotePlan(v, t) + Points(es), k);
            && (k == 3 || k == 4 || k == 5 ==> now.Staged(v) == Whole(t))
            && (k < 4 ==> now.versions == d.versions)
            && (4 <= k < PROMOTED ==> !now.Version(v).Whole?)
            && (k >= PROMOTED ==> now.Version(v) == Whole(t) && v !in now.staging)
            && (forall u | u != v :: now.Version(u) == d.Version(u))
            && (k <= PROMOTED ==> now.files == d.files)
            && (k >= PROMOTED ==> now.files == PointersAfter(d.files, es, k - PROMOTED))
  {
    if k > 0 { PromotionStops(d, v, t, es, k - 1); }
  }

  lemma ClearingClears<K, T>(d: Root<K, T>, v: K)
    ensures After(d, [ClearStaging(v)], 1) == d.(staging := d.staging - {v})
  {
    assert After(d, [ClearStaging(v)], 0) == d;
  }

  lemma {:induction false} PointingStops<K, T>(d: Root<K, T>, es: seq<PointerEffect<K>>, k: nat)
    requires k <= |es|
    ensures var now := After(d, Points(es), k);
            now.versions == d.versions && now.staging == d.staging && now.files == PointersAfter(d.files, es, k)
  {
    if k > 0 { PointingStops(d, es, k - 1); }
  }

  predicate CleansUp<K, T>(e: Effect<K, T>) {
    e.ClearStaging? || (e.Point? && e.e.DropTemp?)
  }

  lemma {:induction false} LeftoversAreHarmless<K, T>(d: Root<K, T>, es: seq<Effect<K, T>>, k: nat)
    requires k <= |es| && forall e | e in es :: CleansUp(e)
    ensures After(d, es, k).versions == d.versions && After(d, es, k).files.values == d.files.values
  {
    if k > 0 {
      assert es[k - 1] in es;
      LeftoversAreHarmless(d, es, k - 1);
    }
  }

  lemma SameVersions<K, T>(d: Root<K, T>, d': Root<K, T>)
    requires d.versions == d'.versions
    ensures forall v :: d'.Version(v) == d.Version(v)
  {}

  lemma {:induction false} Resume<K, T>(
    d: Root<K, T>, plan: seq<Effect<K, T>>, k: nat, piece: seq<Effect<K, T>>, j: nat)
    requires j <= |piece| && k + |piece| <= |plan| && plan[k..k + |piece|] == piece
    ensures After(After(d, plan, k), piece, j) == After(d, plan, k + j)
  {
    if j > 0 {
      Resume(d, plan, k, piece, j - 1);
      assert piece[j - 1] == plan[k + j - 1];
    }
  }

  lemma {:induction false} SamePrefix<K, T>(d: Root<K, T>, plan: seq<Effect<K, T>>, plan': seq<Effect<K, T>>, k: nat)
    requires k <= |plan| && k <= |plan'| && plan[..k] == plan'[..k]
    ensures After(d, plan, k) == After(d, plan', k)
  {
    if k > 0 {
      assert plan[..k][..k - 1] == plan[..k - 1] && plan'[..k][..k - 1] == plan'[..k - 1];
      assert plan[k - 1] == plan[..k][k - 1];
      SamePrefix(d, plan, plan', k - 1);
    }
  }

  /** The directory on disk, and the process that works on it. */
  class Directory<K(==), T(0)> {
    // Nothing fails and nothing stops the process.
    const reliable: bool
    var root: Root<K, T>
    // The process has stopped: nothing is read or written any more.
    var stopped: bool

    constructor (root: Root<K, T>, reliable: bool)
      ensures this.root == root && this.reliable == reliable && !stopped
    {
      this.root, this.reliable := root, reliable;
      stopped := false;
    }

    /** One file operation made of atomic effects; without a stop, it succeeds exactly when it did them all. */
    method Perform(effects: seq<Effect<K, T>>) returns (ok: bool, ghost done: nat)
      modifies this
      ensures done <= |effects| && root == After(old(root), effects, done)
      ensures !stopped ==> (ok <==> done == |effects|)
      ensures stopped ==> !ok
      ensures reliable && !old(stopped) ==> ok
      ensures old(stopped) ==> stopped && done == 0
    {
      done := 0;
      if stopped { return false, done; }
      for i := 0 to |effects|
        invariant !stopped && done == i && root == After(old(root), effects, i)
      {
        var fails: bool, stops: bool := *, *;
        if !reliable && (fails || stops) {
          stopped := stops;
          return false, done;
        }
        root := Apply(root, effects[i]);
        done := i + 1;
      }
      var stopsNow: bool := *;
      stopped := stopsNow && !reliable;
      ok := !stopped;
    }

    /** The next effects of a plan that has run up to its effect k. */
    method PerformNext(ghost start: Root<K, T>, ghost plan: seq<Effect<K, T>>, ghost k: nat, effects: seq<Effect<K, T>>)
      returns (ok: bool, ghost done: nat)
      requires k + |effects| <= |plan| && plan[k..k + |effects|] == effects && root == After(start, plan, k)
      modifies this
      ensures k <= done <= k + |effects| && root == After(start, plan, done)
      ensures !stopped ==> (ok <==> done == k + |effects|)
      ensures stopped ==> !ok
      ensures reliable && !old(stopped) ==> ok
      ensures old(stopped) ==> stopped && done == k
    {
      ok, done := Perform(effects);
      Resume(start, plan, k, effects, done);
      done := k + done;
    }

    method PointNext(ghost start: Root<K, T>, ghost plan: seq<Effect<K, T>>, ghost k: nat, p: Pointer, v: K)
      returns (ok: bool, ghost done: nat, ghost leftovers: seq<Effect<K, T>>)
      requires k + 4 <= |plan| && plan[k..k + 4] == Points(WritePointer(p, v)) && root == After(start, plan, k)
      modifies this
      ensures k <= done <= k + 4 && (forall e | e in leftovers :: CleansUp(e))
      ensures root == After(After(start, plan, done), leftovers, |leftovers|)
      ensures !stopped ==> (ok <==> done == k + 4)
      ensures ok ==> leftovers == []
      ensures stopped ==> !ok
      ensures reliable && !old(stopped) ==> ok
      ensures old(stopped) ==> stopped
    {
      ok, done, leftovers := WritePointerFile(p, v);
      Resume(start, plan, k, Points(WritePointer(p, v)), done);
      done := k + done;
    }

    /** A missing, malformed or unreadable file is an error. */
    method ReadPointer(p: Pointer) returns (value: Option<K>)
      ensures value.None? || value == root.At(p)
      ensures stopped ==> value.None?
      ensures reliable && !stopped ==> value == root.At(p)
    {
      var readable: bool := *;
      value := if (reliable || readable) && !stopped then root.At(p) else None;
    }

    method ReadVersion(v: K) returns (found: Option<T>)
      ensures found.Some? ==> root.Version(v) == Whole(found.value)
      ensures reliable && !stopped && root.Version(v).Whole? ==> found.Some?
    {
      var readable: bool := *;
      found := if (reliable || readable) && !stopped && root.Version(v).Whole? then Some(root.Version(v).content) else None;
    }

    method WritePointerFile(p: Pointer, v: K) returns (ok: bool, ghost done: nat, ghost leftovers: seq<Effect<K, T>>)
      modifies this
      ensures done <= 4 && (forall e | e in leftovers :: CleansUp(e))
      ensures var stop := After(old(root), Points(WritePointer(p, v)), done);
              root == After(stop, leftovers, |leftovers|)
      ensures !stopped ==> (ok <==> done == 4)
      ensures ok ==> leftovers == []
      ensures stopped ==> !ok
      ensures reliable && !old(stopped) ==> ok
      ensures old(stopped) ==> stopped
    {
      ghost var start := root;
      ghost var plan := Points(WritePointer(p, v));
      leftovers := [];
      ok, done := PerformNext(start, plan, 0, [Point(DropTemp(p))]);
      if !ok { return; }
      ok, done := PerformNext(start, plan, 1, [Point(TempPart(p)), Point(TempWhole(p, v))]);
      if !ok { return; }
      ok, done := PerformNext(start, plan, 3, [Point(Commit(p))]);
      if !ok {
        var _, tidied := Perform([Point(DropTemp(p))]);
        leftovers := if tidied == 1 then [Point(DropTemp(p))] else [];
      }
    }
  }
}
