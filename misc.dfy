/** The small stateful helpers of the prelude
    (src/stereoviewer/prelude/misc.h, misc.cpp): fresh numbers, opaque ids,
    the ML-like `option`, the `lazy` box and the intrusive reference counter
    `refcnt`.  An `option` value is a `Wrappers.Option`; the heap cell the
    C++ class points to is the field of `OptionBox`. */
module Misc {
  import opened Wrappers

  const UIntRange := 0x1_0000_0000

  /** The function-local static counter behind `fresh_int`, an
      `unsigned int` that starts at 0. */
  class FreshInts {
    var c: nat

    predicate Valid()
      reads this
    {
      c < UIntRange
    }

    constructor()
      ensures Valid() && c == 0
    {
      c := 0;
    }

    /** `fresh_int`: the counter before the post-increment, which wraps
        at 2^32. */
    method Next() returns (r: nat)
      requires Valid()
      modifies this
      ensures Valid()
      ensures r == old(c)
      ensures c == (old(c) + 1) % UIntRange
    {
      r := c;
      c := (c + 1) % UIntRange;
    }
  }

  /** The first `k` fresh numbers of a program run are 0, 1, ..., k-1. */
  method FirstFreshInts(k: nat) returns (rs: seq<nat>)
    requires k <= UIntRange
    ensures |rs| == k
    ensures forall i :: 0 <= i < k ==> rs[i] == i
  {
    var counter := new FreshInts();
    rs := [];
    while |rs| < k
      invariant counter.Valid() && |rs| <= k
      invariant counter.c == |rs| % UIntRange
      invariant forall i :: 0 <= i < |rs| ==> rs[i] == i
    {
      var r := counter.Next();
      rs := rs + [r];
    }
  }

  /** `unique_id_type`: a wrapped value compared by that value only. */
  datatype UniqueId<T> = UniqueId(x: T)

  function SameId<T(==)>(a: UniqueId<T>, b: UniqueId<T>): (r: bool)
    ensures r <==> a == b
  {
    a.x == b.x
  }

  /** `something(d)`: the held value, or `d` for none. */
  function Something<T>(o: Option<T>, d: T): (r: T)
    ensures o.Some? ==> r == o.value
    ensures o.None? ==> r == d
  {
    if o.Some? then o.value else d
  }

  /** `map`: none stays none, `some(v)` becomes `some(f(v))`. */
  function Map<T, U>(o: Option<T>, f: T -> U): (r: Option<U>)
    ensures r.Some? <==> o.Some?
    ensures o.Some? ==> r.value == f(o.value)
  {
    if o.Some? then Some(f(o.value)) else None
  }

  /** Mapping composes. */
  lemma MapCompose<T, U, V>(o: Option<T>, f: T -> U, g: U -> V)
    ensures Map(Map(o, f), g) == Map(o, x => g(f(x)))
  {
  }

  /** An `option` object: `p` is the pointed-to value, `None` for NULL. */
  class OptionBox<T> {
    var p: Option<T>

    /** The default `option` is none. */
    constructor Empty()
      ensures p == None
    {
      p := None;
    }

    /** `some(x)`: a fresh copy of `x`. */
    constructor Of(x: T)
      ensures p == Some(x)
    {
      p := Some(x);
    }

    function IsSome(): (r: bool)
      reads this
      ensures r <==> p != None
    {
      p.Some?
    }

    /** Copy assignment: a deep copy of the other's value.  Self-assignment
        would read the value it has just deleted, so the other box must be a
        different object. */
    method CopyAssign(o: OptionBox<T>)
      requires o != this
      modifies this
      ensures p == o.p
    {
      p := o.p;
    }

    /** Move assignment: the value moves over and the source becomes none;
        moving a box onto itself leaves it none. */
    method MoveAssign(o: OptionBox<T>)
      modifies this, o
      ensures o != this ==> p == old(o.p)
      ensures o.p == None
    {
      p := o.p;
      o.p := None;
    }
  }

  /** `lazy`: a cached value and the generator behind it.  `evaluations`
      counts the generator calls; the value the generator would yield when
      called is a parameter of `Force`. */
  class Lazy<T> {
    var opt: Option<T>
    var evaluations: nat

    constructor()
      ensures opt == None && evaluations == 0
    {
      opt := None;
      evaluations := 0;
    }

    /** `force`: calls the generator only when nothing is cached. */
    method Force(generated: T) returns (v: T)
      modifies this
      ensures old(opt).Some? ==> v == old(opt).value && opt == old(opt) && evaluations == old(evaluations)
      ensures old(opt).None? ==> v == generated && opt == Some(generated) && evaluations == old(evaluations) + 1
    {
      if opt.None? {
        opt := Some(generated);
        evaluations := evaluations + 1;
      }
      v := opt.value;
    }
  }

  /** Two `force` calls on a fresh box evaluate the generator once and
      return its first value both times, whatever a second call would have
      produced. */
  method ForceTwice<T>(first: T, second: T) returns (v1: T, v2: T, calls: nat)
    ensures v1 == first && v2 == first && calls == 1
  {
    var box := new Lazy<T>();
    v1 := box.Force(first);
    v2 := box.Force(second);
    calls := box.evaluations;
  }

  /** The shared `size_t` counter of a family of `refcnt` handles. */
  class Counter {
    var n: nat

    constructor(n0: nat)
      ensures n == n0
    {
      n := n0;
    }
  }

  /** A `refcnt` handle: `cnt` is the shared counter (null after a move or
      after disposal) and `disposals` counts the calls of `dispose`.  The
      mutex only serialises these updates and is not modelled. */
  class RefCnt {
    var cnt: Counter?
    var disposals: nat

    /** A new handle owns a fresh counter set to 1. */
    constructor()
      ensures cnt != null && fresh(cnt) && cnt.n == 1 && disposals == 0
    {
      cnt := new Counter(1);
      disposals := 0;
    }

    /** `count`: the shared counter, 0 for a handle without one. */
    function Count(): (r: nat)
      reads this, cnt
      ensures cnt == null ==> r == 0
      ensures cnt != null ==> r == cnt.n
    {
      if cnt != null then cnt.n else 0
    }

    /** `copy`: share `r`'s counter and increment it. */
    method Copy(r: RefCnt)
      modifies this, r.cnt
      ensures cnt == old(r.cnt)
      ensures cnt != null ==> cnt.n == old(r.cnt.n) + 1
      ensures disposals == old(disposals)
    {
      cnt := r.cnt;
      if cnt != null {
        cnt.n := cnt.n + 1;
      }
    }

    /** `move`: take over `r`'s counter unchanged; `r` keeps none. */
    method Move(r: RefCnt)
      modifies this, r
      ensures r != this ==> cnt == old(r.cnt)
      ensures r.cnt == null
      ensures r != this ==> disposals == old(disposals) && r.disposals == old(r.disposals)
    {
      cnt := r.cnt;
      r.cnt := null;
    }

    /** `unref`: decrement the shared counter; when it reaches 0, dispose
        and release the counter.  A handle without a counter is left alone.
        A live counter is positive, since a counter that reached 0 has been
        released. */
    method Unref()
      requires cnt != null ==> cnt.n > 0
      modifies this, cnt
      ensures old(cnt) == null ==> cnt == null && disposals == old(disposals)
      ensures old(cnt) != null ==> old(cnt).n == old(cnt.n) - 1
      ensures old(cnt) != null && old(cnt.n) == 1 ==> cnt == null && disposals == old(disposals) + 1
      ensures old(cnt) != null && old(cnt.n) > 1 ==> cnt == old(cnt) && disposals == old(disposals)
    {
      if cnt != null {
        cnt.n := cnt.n - 1;
        if cnt.n == 0 {
          disposals := disposals + 1;
          cnt := null;
        }
      }
    }

    /** Copy assignment: release the old counter, then share `r`'s. */
    method CopyAssign(r: RefCnt)
      requires cnt != null ==> cnt.n > 0
      requires r.cnt != null ==> r.cnt.n > 0
      requires r != this
      modifies this, cnt, r.cnt
      ensures cnt == old(r.cnt)
      ensures cnt != null && cnt != old(cnt) ==> cnt.n == old(r.cnt.n) + 1
    {
      Unref();
      Copy(r);
    }

    /** Move assignment: release the old counter, then take over `r`'s. */
    method MoveAssign(r: RefCnt)
      requires cnt != null ==> cnt.n > 0
      requires r != this
      modifies this, cnt, r
      ensures cnt == old(r.cnt)
      ensures r.cnt == null
    {
      Unref();
      Move(r);
    }
  }

  /** Two handles on one object: the first release leaves the object alive
      with count 1, the second disposes it exactly once. */
  method SharedLifetime() returns (afterCopy: nat, afterFirst: nat, afterSecond: nat, disposed: nat)
    ensures afterCopy == 2 && afterFirst == 1 && afterSecond == 0 && disposed == 1
  {
    var a := new RefCnt();
    var b := new RefCnt();
    b.cnt := null;
    b.Copy(a);
    afterCopy := a.Count();
    a.Unref();
    afterFirst := b.Count();
    b.Unref();
    afterSecond := b.Count();
    disposed := a.disposals + b.disposals;
  }
}
