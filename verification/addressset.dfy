/** The address sets of a record set. Two addresses are the same member
    when they have the same key (the record set uses `hashIPString`); the
    set keeps, for each key, the first address added with it. */
module AddressSet {

  type AddrSet = map<int, string>

  /** Every member sits under its own key. */
  ghost predicate WellKeyed(s: AddrSet, key: string -> int) {
    forall k :: k in s ==> key(s[k]) == k
  }

  /** Adds `a` unless a member with its key is already there. */
  function Insert(s: AddrSet, a: string, key: string -> int): (r: AddrSet)
    ensures r.Keys == s.Keys + {key(a)}
    ensures forall k :: k in s ==> r[k] == s[k]
    ensures key(a) !in s ==> r[key(a)] == a
    ensures WellKeyed(s, key) ==> WellKeyed(r, key)
  {
    if key(a) in s then s else s[key(a) := a]
  }

  /** No element before index `i` has the key of `xs[i]`. */
  ghost predicate FirstOfKey(xs: seq<string>, i: int, key: string -> int)
    requires 0 <= i < |xs|
  {
    forall j :: 0 <= j < i ==> key(xs[j]) != key(xs[i])
  }

  function Keys(xs: seq<string>, key: string -> int): set<int> {
    set x | x in xs :: key(x)
  }

  /** The set built by adding the elements of `xs` in order. */
  function FromList(xs: seq<string>, key: string -> int): (s: AddrSet)
    ensures WellKeyed(s, key)
    ensures s.Keys == Keys(xs, key)
    ensures forall k :: k in s ==> s[k] in xs
  {
    if |xs| == 0 then map[]
    else
      var init := xs[..|xs| - 1];
      var last := xs[|xs| - 1];
      assert xs == init + [last];
      assert Keys(xs, key) == Keys(init, key) + {key(last)};
      Insert(FromList(init, key), last, key)
  }

  /** Being first of its key survives dropping a later last element. */
  lemma FirstOfKeyInInit(xs: seq<string>, i: int, key: string -> int)
    requires 0 <= i < |xs| - 1 && FirstOfKey(xs, i, key)
    ensures xs[..|xs| - 1][i] == xs[i]
    ensures FirstOfKey(xs[..|xs| - 1], i, key)
  {
    var init := xs[..|xs| - 1];
    forall j | 0 <= j < i ensures key(init[j]) != key(init[i]) {
      assert init[j] == xs[j];
    }
  }

  /** A last element that is first of its key brings a key the rest lacks. */
  lemma FirstOfKeyAtEnd(xs: seq<string>, key: string -> int)
    requires |xs| > 0 && FirstOfKey(xs, |xs| - 1, key)
    ensures key(xs[|xs| - 1]) !in Keys(xs[..|xs| - 1], key)
  {
    var init := xs[..|xs| - 1];
    forall x | x in init ensures key(x) != key(xs[|xs| - 1]) {
      var j :| 0 <= j < |init| && init[j] == x;
      assert xs[j] == x;
    }
  }

  /** The first element added under a key is the one the set keeps. */
  lemma {:induction false} FromListKeepsFirst(xs: seq<string>, i: int, key: string -> int)
    requires 0 <= i < |xs| && FirstOfKey(xs, i, key)
    ensures FromList(xs, key)[key(xs[i])] == xs[i]
  {
    var init := xs[..|xs| - 1];
    var last := xs[|xs| - 1];
    var s0 := FromList(init, key);
    assert FromList(xs, key) == Insert(s0, last, key);
    if i < |xs| - 1 {
      FirstOfKeyInInit(xs, i, key);
      FromListKeepsFirst(init, i, key);
      assert xs[i] in init;
      assert key(xs[i]) in s0;
    } else {
      FirstOfKeyAtEnd(xs, key);
      assert key(last) !in s0;
    }
  }

  /** The members of `a` whose key is not in `b` (`Set.Difference`). */
  function Difference(a: AddrSet, b: AddrSet): (d: AddrSet)
    ensures d.Keys == a.Keys - b.Keys
    ensures forall k :: k in d ==> d[k] == a[k]
  {
    map k | k in a && k !in b :: a[k]
  }

  /** `xs` enumerates `s`: one element per key, each the member under its key. */
  ghost predicate IsListing(xs: seq<string>, s: AddrSet, key: string -> int) {
    && |xs| == |s|
    && Keys(xs, key) == s.Keys
    && (forall i :: 0 <= i < |xs| ==> key(xs[i]) in s && s[key(xs[i])] == xs[i])
    && (forall i, j :: 0 <= i < j < |xs| ==> key(xs[i]) != key(xs[j]))
  }

  /** What an update must remove and add to turn `was` into `now`. */
  datatype Plan = Plan(remove: AddrSet, add: AddrSet)

  /** The update's reconciliation: remove = was - now, add = now - was. */
  function Reconcile(was: AddrSet, now: AddrSet): (p: Plan)
    ensures p.remove.Keys <= was.Keys && p.remove.Keys !! now.Keys
    ensures p.add.Keys <= now.Keys && p.add.Keys !! was.Keys
    ensures (was.Keys - p.remove.Keys) + p.add.Keys == now.Keys
    ensures forall k :: k in p.remove ==> p.remove[k] == was[k]
    ensures forall k :: k in p.add ==> p.add[k] == now[k]
  {
    Plan(Difference(was, now), Difference(now, was))
  }

  /** The set left after carrying out a plan on `s`. */
  function Apply(s: AddrSet, p: Plan): AddrSet {
    map k | k in (s.Keys - p.remove.Keys) + p.add.Keys :: if k in p.add then p.add[k] else s[k]
  }

  /** Carrying out the reconciliation of `was` and `now` on `was` yields a set
      with exactly the members of `now`: added addresses come from `now`,
      surviving ones keep the spelling they had. */
  lemma ReconcileReachesNew(was: AddrSet, now: AddrSet, key: string -> int)
    requires WellKeyed(was, key) && WellKeyed(now, key)
    ensures Apply(was, Reconcile(was, now)).Keys == now.Keys
    ensures WellKeyed(Apply(was, Reconcile(was, now)), key)
    ensures forall k :: k in now && k !in was ==> Apply(was, Reconcile(was, now))[k] == now[k]
    ensures forall k :: k in now && k in was ==> Apply(was, Reconcile(was, now))[k] == was[k]
  {
  }

  /** Reconciling a set with itself plans nothing. */
  lemma ReconcileSelfIsEmpty(s: AddrSet)
    ensures Reconcile(s, s) == Plan(map[], map[])
  {
  }

  /** Sets with the same keys need no removals and no additions, even when
      they spell some members differently. */
  lemma SameKeysPlanNothing(was: AddrSet, now: AddrSet)
    requires was.Keys == now.Keys
    ensures Reconcile(was, now) == Plan(map[], map[])
  {
  }
}
