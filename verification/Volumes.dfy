// The volumes-in-use and volumes-attached lists of a node, as
// pkg/virtualnode/pod/respod_volume.go adds to and removes from them.
module Volumes {
  import opened Ordering

  datatype Attached = Attached(name: string, path: string)

  function Self(s: string): (n: string) { s }

  function AttachedName(a: Attached): (n: string) { a.name }

  /** The two lists a node status carries. */
  datatype Lists = Lists(inUse: seq<string>, attached: seq<Attached>)

  /** The attachments of some volumes, in the order of the volumes. */
  function Zip(ns: seq<string>, m: map<string, string>): (r: seq<Attached>)
    ensures |r| == |ns| && forall i :: 0 <= i < |ns| ==> r[i] == Attached(ns[i], PathOf(m, ns[i]))
  {
    seq(|ns|, i requires 0 <= i < |ns| => Attached(ns[i], PathOf(m, ns[i])))
  }

  function PathOf(m: map<string, string>, n: string): (path: string) { if n in m then m[n] else "" }

  /** The lists enumerate a map from volume to device path: same order, same names, no repetition. */
  ghost predicate Enumerates(l: Lists, m: map<string, string>)
  {
    && Ascending(l.inUse, Self) && (forall n :: n in l.inUse <==> n in m)
    && l.attached == Zip(l.inUse, m)
  }

  /** Only one pair of lists enumerates a map. */
  lemma EnumerationIsUnique(k: Lists, l: Lists, m: map<string, string>)
    requires Enumerates(k, m) && Enumerates(l, m)
    ensures k == l
  {
    AscendingIsUnique(k.inUse, l.inUse, Self);
  }

  // ---------------------------------------------------------------- adding

  /** The volumes, in the order they are walked, that are not in use yet. */
  function Unmarked(order: seq<string>, inUse: seq<string>): (ns: seq<string>)
  {
    if order == [] then []
    else Unmarked(order[..|order| - 1], inUse) +
         if order[|order| - 1] in inUse then [] else [order[|order| - 1]]
  }

  function Attach(ns: seq<string>): (r: seq<Attached>)
    ensures |r| == |ns| && forall i :: 0 <= i < |ns| ==> r[i] == Attached(ns[i], "")
  {
    seq(|ns|, i requires 0 <= i < |ns| => Attached(ns[i], ""))
  }

  /** addVolumesInUse, for one order in which the map of volumes is walked. */
  function Add(l: Lists, order: seq<string>): (l': Lists)
    requires |l.inUse| == |l.attached|
    ensures |l'.inUse| == |l'.attached|
  {
    var added := Unmarked(order, l.inUse);
    Lists(SortByName(added + l.inUse, Self), SortByName(Attach(added) + l.attached, AttachedName))
  }

  method IsMarked(inUse: seq<string>, vol: string) returns (marked: bool)
    ensures marked <==> vol in inUse
  {
    for j := 0 to |inUse|
      invariant vol !in inUse[..j]
    {
      if inUse[j] == vol {
        return true;
      }
    }
    return false;
  }

  method AddVolumesInUse(l: Lists, order: seq<string>) returns (r: Lists)
    requires |l.inUse| == |l.attached|
    ensures r == Add(l, order)
  {
    var inUse: seq<string>, attached: seq<Attached> := [], [];
    for i := 0 to |order|
      invariant inUse == Unmarked(order[..i], l.inUse)
      invariant attached == Attach(inUse)
    {
      assert order[..i + 1][..i] == order[..i];
      var marked := IsMarked(l.inUse, order[i]);
      if !marked {
        inUse := inUse + [order[i]];
        attached := attached + [Attached(order[i], "")];
      }
    }
    assert order[..|order|] == order;
    var allInUse, allAttached := inUse, attached;
    for i := 0 to |l.inUse|
      invariant allInUse == inUse + l.inUse[..i] && allAttached == attached + l.attached[..i]
    {
      allInUse := allInUse + [l.inUse[i]];
      allAttached := allAttached + [l.attached[i]];
    }
    assert l.inUse[..|l.inUse|] == l.inUse && l.attached[..|l.inUse|] == l.attached;
    r := Lists(SortByName(allInUse, Self), SortByName(allAttached, AttachedName));
  }

  lemma {:induction false} UnmarkedHolds(order: seq<string>, inUse: seq<string>, n: string)
    ensures n in Unmarked(order, inUse) <==> n in order && n !in inUse
  {
    if order != [] {
      UnmarkedHolds(order[..|order| - 1], inUse, n);
      assert order == order[..|order| - 1] + [order[|order| - 1]];
    }
  }

  lemma {:induction false} UnmarkedDistinct(order: seq<string>, inUse: seq<string>)
    requires DistinctNames(order, Self)
    ensures DistinctNames(Unmarked(order, inUse), Self)
  {
    if order != [] {
      var front := order[..|order| - 1];
      UnmarkedDistinct(front, inUse);
      forall i | 0 <= i < |Unmarked(front, inUse)| ensures Unmarked(front, inUse)[i] != order[|order| - 1] {
        UnmarkedHolds(front, inUse, Unmarked(front, inUse)[i]);
        var j :| 0 <= j < |front| && front[j] == Unmarked(front, inUse)[i];
        assert Self(order[j]) != Self(order[|order| - 1]);
      }
    }
  }

  lemma AscendingDistinct(xs: seq<string>)
    requires Ascending(xs, Self)
    ensures DistinctNames(xs, Self)
  {
    forall i, j | 0 <= i < j < |xs| ensures Self(xs[i]) != Self(xs[j]) { LessTrichotomy(Self(xs[i]), Self(xs[j])); }
  }

  lemma ZipHolds(ns: seq<string>, m: map<string, string>, a: Attached)
    ensures a in Zip(ns, m) <==> a.name in ns && a.path == PathOf(m, a.name)
  {
    if a.name in ns {
      var i :| 0 <= i < |ns| && ns[i] == a.name;
      assert Zip(ns, m)[i] in Zip(ns, m);
    }
    if a in Zip(ns, m) {
      var i :| 0 <= i < |ns| && Zip(ns, m)[i] == a;
      assert ns[i] in ns;
    }
  }

  lemma ZipAscends(ns: seq<string>, m: map<string, string>)
    requires Ascending(ns, Self)
    ensures Ascending(Zip(ns, m), AttachedName)
  {
    forall i, j | 0 <= i < j < |ns| ensures Less(AttachedName(Zip(ns, m)[i]), AttachedName(Zip(ns, m)[j])) {
      assert Less(Self(ns[i]), Self(ns[j]));
    }
  }

  /** Two lists aligned by name, with distinct names, stay aligned when sorted separately. */
  lemma SortKeepsAligned(ns: seq<string>, m: map<string, string>)
    requires DistinctNames(ns, Self) && (forall n :: n in ns <==> n in m)
    ensures Enumerates(Lists(SortByName(ns, Self), SortByName(Zip(ns, m), AttachedName)), m)
  {
    var names, pairs := SortByName(ns, Self), SortByName(Zip(ns, m), AttachedName);
    forall n ensures n in names <==> n in m { MemberOf(names, ns, n); }
    SortAscends(ns, Self);
    ZipAscends(names, m);
    forall i, j | 0 <= i < j < |ns| ensures AttachedName(Zip(ns, m)[i]) != AttachedName(Zip(ns, m)[j]) {
      assert Self(ns[i]) != Self(ns[j]);
    }
    SortAscends(Zip(ns, m), AttachedName);
    forall a ensures a in Zip(names, m) <==> a in pairs {
      MemberOf(pairs, Zip(ns, m), a);
      ZipHolds(names, m, a);
      ZipHolds(ns, m, a);
    }
    AscendingIsUnique(Zip(names, m), pairs, AttachedName);
  }

  lemma DisjointDistinct(xs: seq<string>, ys: seq<string>)
    requires DistinctNames(xs, Self) && DistinctNames(ys, Self) && forall x :: x in xs ==> x !in ys
    ensures DistinctNames(xs + ys, Self)
  {
    var ns := xs + ys;
    forall i, j | 0 <= i < j < |ns| ensures Self(ns[i]) != Self(ns[j]) {
      if i < |xs| <= j {
        assert ns[i] in xs && ns[j] in ys;
      } else if j < |xs| {
        assert Self(xs[i]) != Self(xs[j]);
      } else {
        assert Self(ys[i - |xs|]) != Self(ys[j - |xs|]);
      }
    }
  }

  /** New volumes are attached without a path; a volume already there keeps its own. */
  function AddTo(m: map<string, string>, order: seq<string>): (m': map<string, string>)
  {
    (map n | n in order :: "") + m
  }

  /** Adding works on the map the lists enumerate, whatever the order of the walk. */
  lemma AddEnumerates(l: Lists, m: map<string, string>, order: seq<string>)
    requires Enumerates(l, m) && DistinctNames(order, Self)
    ensures Enumerates(Add(l, order), AddTo(m, order))
  {
    var added := Unmarked(order, l.inUse);
    var ns, ats := added + l.inUse, Attach(added) + l.attached;
    UnmarkedDistinct(order, l.inUse);
    AscendingDistinct(l.inUse);
    forall n ensures n in added <==> n in order && n !in m { UnmarkedHolds(order, l.inUse, n); }
    DisjointDistinct(added, l.inUse);
    var m' := AddTo(m, order);
    forall i | 0 <= i < |ns| ensures ats[i] == Attached(ns[i], PathOf(m', ns[i])) {
      if i < |added| { assert ns[i] in added; } else { assert ns[i] in l.inUse; }
    }
    assert ats == Zip(ns, m');
    SortKeepsAligned(ns, m');
  }

  // ---------------------------------------------------------------- removing

  function Remove(l: Lists, vols: set<string>): (l': Lists)
    requires |l.inUse| == |l.attached|
    ensures |l'.inUse| == |l'.attached|
    decreases |l.inUse|
  {
    if l.inUse == [] then Lists([], [])
    else
      var k := |l.inUse| - 1;
      var r := Remove(Lists(l.inUse[..k], l.attached[..k]), vols);
      if l.inUse[k] in vols then r else Lists(r.inUse + [l.inUse[k]], r.attached + [l.attached[k]])
  }

  method RemoveVolumeInUse(l: Lists, vols: set<string>) returns (r: Lists)
    requires |l.inUse| == |l.attached|
    ensures r == Remove(l, vols)
  {
    var inUse: seq<string>, attached: seq<Attached> := [], [];
    for i := 0 to |l.inUse|
      invariant Lists(inUse, attached) == Remove(Lists(l.inUse[..i], l.attached[..i]), vols)
    {
      assert l.inUse[..i + 1][..i] == l.inUse[..i] && l.attached[..i + 1][..i] == l.attached[..i];
      if l.inUse[i] in vols {
        continue;
      }
      inUse := inUse + [l.inUse[i]];
      attached := attached + [l.attached[i]];
    }
    assert l.inUse[..|l.inUse|] == l.inUse && l.attached[..|l.inUse|] == l.attached;
    r := Lists(inUse, attached);
  }

  lemma {:induction false} RemoveHolds(l: Lists, m: map<string, string>, vols: set<string>, n: string)
    requires l.attached == Zip(l.inUse, m)
    ensures n in Remove(l, vols).inUse <==> n in l.inUse && n !in vols
    decreases |l.inUse|
  {
    if l.inUse != [] {
      var k := |l.inUse| - 1;
      assert l.inUse == l.inUse[..k] + [l.inUse[k]];
      assert l.attached[..k] == Zip(l.inUse[..k], m);
      RemoveHolds(Lists(l.inUse[..k], l.attached[..k]), m, vols, n);
    }
  }

  lemma {:induction false} RemoveAligned(l: Lists, m: map<string, string>, vols: set<string>)
    requires Ascending(l.inUse, Self) && l.attached == Zip(l.inUse, m)
    ensures var r := Remove(l, vols); Ascending(r.inUse, Self) && r.attached == Zip(r.inUse, m)
    decreases |l.inUse|
  {
    if l.inUse != [] {
      var k := |l.inUse| - 1;
      var front := Lists(l.inUse[..k], l.attached[..k]);
      assert front.attached == Zip(front.inUse, m);
      RemoveAligned(front, m, vols);
      var r := Remove(front, vols);
      forall i | 0 <= i < |r.inUse| ensures Less(Self(r.inUse[i]), Self(l.inUse[k])) {
        RemoveHolds(front, m, vols, r.inUse[i]);
        var j :| 0 <= j < k && front.inUse[j] == r.inUse[i];
        assert Less(Self(l.inUse[j]), Self(l.inUse[k]));
      }
    }
  }

  /** Removing works on the map the lists enumerate. */
  lemma RemoveEnumerates(l: Lists, m: map<string, string>, vols: set<string>)
    requires Enumerates(l, m)
    ensures Enumerates(Remove(l, vols), m - vols)
  {
    var r := Remove(l, vols);
    RemoveAligned(l, m, vols);
    forall n ensures n in r.inUse <==> n in m - vols { RemoveHolds(l, m, vols, n); }
    assert r.attached == Zip(r.inUse, m - vols);
  }

  // ---------------------------------------------------------------- runs

  datatype Op = AddAll(order: seq<string>) | RemoveAll(vols: set<string>)

  ghost predicate ValidOp(op: Op) { op.AddAll? ==> DistinctNames(op.order, Self) }

  /** A run on the lists, and the same run on a map. */
  ghost function Run(l: Lists, ops: seq<Op>): (l': Lists)
    requires |l.inUse| == |l.attached|
    decreases ops
  {
    if ops == [] then l
    else match ops[0]
         case AddAll(order) => Run(Add(l, order), ops[1..])
         case RemoveAll(vols) => Run(Remove(l, vols), ops[1..])
  }

  ghost function RunMap(m: map<string, string>, ops: seq<Op>): (m': map<string, string>)
    decreases ops
  {
    if ops == [] then m
    else match ops[0]
         case AddAll(order) => RunMap(AddTo(m, order), ops[1..])
         case RemoveAll(vols) => RunMap(m - vols, ops[1..])
  }

  /**
   * After any run of additions and removals from empty lists, in any walking order, the
   * two lists are aligned by name, sorted and without repetition: they enumerate the map
   * that the same additions and removals make.
   */
  lemma {:induction false} RunEnumerates(l: Lists, m: map<string, string>, ops: seq<Op>)
    requires Enumerates(l, m) && forall op :: op in ops ==> ValidOp(op)
    ensures Enumerates(Run(l, ops), RunMap(m, ops))
    decreases ops
  {
    if ops != [] {
      assert ValidOp(ops[0]);
      match ops[0] {
        case AddAll(order) =>
          AddEnumerates(l, m, order);
          RunEnumerates(Add(l, order), AddTo(m, order), ops[1..]);
        case RemoveAll(vols) =>
          RemoveEnumerates(l, m, vols);
          RunEnumerates(Remove(l, vols), m - vols, ops[1..]);
      }
    }
  }

  lemma AddedGoes(m: map<string, string>, order: seq<string>)
    requires forall n :: n in order ==> n !in m
    ensures AddTo(m, order) - (set n | n in order) == m
  {
  }

  /** Removing what was just added to lists disjoint from it gives the very same lists back. */
  lemma RemoveUndoesAdd(l: Lists, m: map<string, string>, order: seq<string>)
    requires Enumerates(l, m) && DistinctNames(order, Self) && forall n :: n in order ==> n !in l.inUse
    ensures Enumerates(Add(l, order), AddTo(m, order))
    ensures Remove(Add(l, order), set n | n in order) == l
  {
    var vols := set n | n in order;
    AddEnumerates(l, m, order);
    RemoveEnumerates(Add(l, order), AddTo(m, order), vols);
    assert forall n :: n in m ==> n !in vols;
    AddedGoes(m, order);
    EnumerationIsUnique(Remove(Add(l, order), vols), l, m);
  }
}
