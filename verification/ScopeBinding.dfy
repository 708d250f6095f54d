/**
 Turning declarations into runtime slots. `bind` sorts the declarations by depth, keeping
 declaration order, and restarts the offset whenever the scope id changes. It panics when two
 declarations get the same name. Here: it never does, and a slot's offset is the
 declaration's rank within its own scope.
 */
module ScopeBinding {

  import opened Prelude
  import opened VarScope

  datatype Name = Name(offset: nat, depth: nat, scope: nat)

  datatype Names = Names(globalWidth: nat, decls: map<Name, Decl>)

  // ---------------------------------------------------------------- the stable sort

  function InsertByDepth(sorted: seq<Decl>, d: Decl): (r: seq<Decl>)
    ensures |r| == |sorted| + 1
  {
    if sorted == [] || sorted[|sorted| - 1].depth <= d.depth then sorted + [d]
    else InsertByDepth(sorted[..|sorted| - 1], d) + [sorted[|sorted| - 1]]
  }

  function SortByDepth(decls: seq<Decl>): (r: seq<Decl>)
    ensures |r| == |decls|
  {
    if decls == [] then []
    else InsertByDepth(SortByDepth(decls[..|decls| - 1]), decls[|decls| - 1])
  }

  predicate Le(a: Decl, b: Decl) {
    a.depth < b.depth || (a.depth == b.depth && a.scopeId <= b.scopeId)
  }

  // Sorted by depth, and at equal depth by scope id.
  ghost predicate Ordered(decls: seq<Decl>) {
    forall i, j :: 0 <= i < j < |decls| ==> Le(decls[i], decls[j])
  }

  lemma {:induction false} InsertMembers(sorted: seq<Decl>, d: Decl)
    ensures forall x :: x in InsertByDepth(sorted, d) <==> x == d || x in sorted
  {
    if !(sorted == [] || sorted[|sorted| - 1].depth <= d.depth) {
      InsertMembers(sorted[..|sorted| - 1], d);
      assert forall x :: x in sorted <==> x == sorted[|sorted| - 1] || x in sorted[..|sorted| - 1];
    }
  }

  lemma {:induction false} SortMembers(decls: seq<Decl>)
    ensures forall x :: x in SortByDepth(decls) <==> x in decls
  {
    if decls != [] {
      SortMembers(decls[..|decls| - 1]);
      InsertMembers(SortByDepth(decls[..|decls| - 1]), decls[|decls| - 1]);
    }
  }

  lemma {:induction false} InsertOrdered(sorted: seq<Decl>, d: Decl)
    requires Ordered(sorted)
    requires forall x :: x in sorted && x.depth == d.depth ==> x.scopeId <= d.scopeId
    ensures Ordered(InsertByDepth(sorted, d))
  {
    var last := |sorted| - 1;
    if sorted == [] || sorted[last].depth <= d.depth {
      forall i | 0 <= i < |sorted|
        ensures Le(sorted[i], d)
      {
        assert sorted[i] in sorted;
        assert i == last || Le(sorted[i], sorted[last]);
      }
    } else {
      InsertOrdered(sorted[..last], d);
      InsertMembers(sorted[..last], d);
      var rest := InsertByDepth(sorted[..last], d);
      forall x | x in rest
        ensures Le(x, sorted[last])
      {
      }
    }
  }

  lemma {:induction false} SortOrdered(decls: seq<Decl>)
    requires DepthOrder(decls)
    ensures Ordered(SortByDepth(decls))
  {
    if decls != [] {
      var last := |decls| - 1;
      SortOrdered(decls[..last]);
      SortMembers(decls[..last]);
      InsertOrdered(SortByDepth(decls[..last]), decls[last]);
    }
  }

  lemma {:induction false} InsertStable(sorted: seq<Decl>, d: Decl, scopeId: nat)
    requires forall x :: x in sorted && x.scopeId == d.scopeId ==> x.depth == d.depth
    ensures OfScope(InsertByDepth(sorted, d), scopeId)
         == if d.scopeId == scopeId then OfScope(sorted, scopeId) + [d] else OfScope(sorted, scopeId)
  {
    var last := |sorted| - 1;
    if sorted == [] || sorted[last].depth <= d.depth {
      assert (sorted + [d])[..|sorted|] == sorted;
    } else {
      InsertStable(sorted[..last], d, scopeId);
      var rest := InsertByDepth(sorted[..last], d);
      assert (rest + [sorted[last]])[..|rest|] == rest;
    }
  }

  // Within one scope the sort keeps declaration order.
  lemma {:induction false} SortStable(decls: seq<Decl>, scopeId: nat)
    requires DepthOrder(decls)
    ensures OfScope(SortByDepth(decls), scopeId) == OfScope(decls, scopeId)
  {
    if decls != [] {
      var last := |decls| - 1;
      var d, front := decls[last], decls[..last];
      var sorted := SortByDepth(front);
      SortStable(front, scopeId);
      SameScopeSameDepth(decls);
      hide InsertByDepth, DepthOrder;
      InsertStable(sorted, d, scopeId);
    }
  }

  lemma SameScopeSameDepth(decls: seq<Decl>)
    requires DepthOrder(decls) && decls != []
    ensures var d := decls[|decls| - 1];
      forall x :: x in SortByDepth(decls[..|decls| - 1]) && x.scopeId == d.scopeId ==> x.depth == d.depth
  {
    hide SortByDepth;
    SortMembers(decls[..|decls| - 1]);
  }

  // ---------------------------------------------------------------- bind

  datatype Binding = Binding(offset: nat, scope: nat, decls: map<Name, Decl>, panicked: bool)

  // One declaration of the loop. A name already taken is the compiler's panic.
  function BindOne(b: Binding, d: Decl): Binding {
    var offset := if d.identifier.scopeId != b.scope then 0 else b.offset;
    var name := Name(offset % U16, d.depth % 256, d.identifier.scopeId);
    Binding(offset + 1, d.identifier.scopeId, b.decls[name := d], b.panicked || name in b.decls)
  }

  function BindFirst(sorted: seq<Decl>, n: nat): Binding
    requires n <= |sorted|
  {
    if n == 0 then Binding(0, 0, map[], false) else BindOne(BindFirst(sorted, n - 1), sorted[n - 1])
  }

  function AtDepth0(decls: seq<Decl>): nat {
    if decls == [] then 0
    else AtDepth0(decls[..|decls| - 1]) + (if decls[|decls| - 1].depth == 0 then 1 else 0)
  }

  // What the compiler's `bind` returns; None where it panics.
  function Bind(decls: seq<Decl>): Option<Names> {
    var b := BindFirst(SortByDepth(decls), |decls|);
    if b.panicked then None else Some(Names(AtDepth0(decls), b.decls))
  }

  // The slot a declaration should get: its rank among the declarations of its scope.
  function SlotOf(decls: seq<Decl>, i: nat): Name
    requires i < |decls|
  {
    Name(|OfScope(decls[..i], decls[i].scopeId)|, decls[i].depth % 256, decls[i].scopeId)
  }

  ghost predicate Bindable(decls: seq<Decl>) {
    && |decls| <= U16
    && DepthOrder(decls)
    && forall i :: 0 <= i < |decls| ==> decls[i].identifier.scopeId == decls[i].scopeId
  }

  // A declaration continues the scope of the one before it, or is the first of its scope.
  ghost predicate ContinuesOrStarts(sorted: seq<Decl>, k: nat)
    requires k < |sorted|
  {
    || (k > 0 && sorted[k - 1].scopeId == sorted[k].scopeId)
    || forall i :: 0 <= i < k ==> sorted[i].scopeId != sorted[k].scopeId
  }

  ghost predicate Grouped(sorted: seq<Decl>) {
    && |sorted| <= U16
    && (forall k :: 0 <= k < |sorted| ==> ContinuesOrStarts(sorted, k))
    && (forall i :: 0 <= i < |sorted| ==> sorted[i].identifier.scopeId == sorted[i].scopeId)
  }

  lemma OrderedIsGrouped(sorted: seq<Decl>, k: nat)
    requires Ordered(sorted) && k < |sorted|
    requires forall x, y :: x in sorted && y in sorted && x.scopeId == y.scopeId ==> x.depth == y.depth
    ensures ContinuesOrStarts(sorted, k)
  {
    forall i | 0 <= i < k && sorted[i].scopeId == sorted[k].scopeId
      ensures sorted[k - 1].scopeId == sorted[k].scopeId
    {
      assert sorted[i] in sorted && sorted[k] in sorted;
      assert i == k - 1 || Le(sorted[i], sorted[k - 1]);
      assert Le(sorted[k - 1], sorted[k]);
    }
  }

  lemma {:induction false} OfScopeEmpty(decls: seq<Decl>, scopeId: nat)
    requires forall i :: 0 <= i < |decls| ==> decls[i].scopeId != scopeId
    ensures OfScope(decls, scopeId) == []
  {
    if decls != [] { OfScopeEmpty(decls[..|decls| - 1], scopeId); }
  }

  lemma {:induction false} OfScopeRank(decls: seq<Decl>, i: nat)
    requires i < |decls|
    ensures |OfScope(decls[..i], decls[i].scopeId)| < |OfScope(decls, decls[i].scopeId)|
    ensures OfScope(decls, decls[i].scopeId)[|OfScope(decls[..i], decls[i].scopeId)|] == decls[i]
    decreases |decls|
  {
    var last := |decls| - 1;
    if i < last {
      assert decls[..last][..i] == decls[..i];
      OfScopeRank(decls[..last], i);
    }
  }

  lemma SlotsDiffer(decls: seq<Decl>, i: nat, j: nat)
    requires i < j < |decls|
    ensures SlotOf(decls, i) != SlotOf(decls, j)
  {
    if decls[i].scopeId == decls[j].scopeId {
      OfScopeRank(decls[..j], i);
      assert decls[..j][..i] == decls[..i];
    }
  }

  function SlotMap(sorted: seq<Decl>, n: nat): map<Name, Decl>
    requires n <= |sorted|
  {
    if n == 0 then map[] else SlotMap(sorted, n - 1)[SlotOf(sorted, n - 1) := sorted[n - 1]]
  }

  lemma {:induction false} SlotMapFresh(sorted: seq<Decl>, n: nat, i: nat)
    requires n <= i < |sorted|
    ensures SlotOf(sorted, i) !in SlotMap(sorted, n)
  {
    if n > 0 {
      SlotMapFresh(sorted, n - 1, i);
      SlotsDiffer(sorted, n - 1, i);
    }
  }

  lemma {:induction false} SlotMapSize(sorted: seq<Decl>, n: nat)
    requires n <= |sorted|
    ensures |SlotMap(sorted, n)| == n
  {
    if n > 0 {
      SlotMapSize(sorted, n - 1);
      SlotMapFresh(sorted, n - 1, n - 1);
    }
  }

  lemma {:induction false} SlotMapInverse(sorted: seq<Decl>, n: nat, name: Name) returns (i: nat)
    requires n <= |sorted| && name in SlotMap(sorted, n)
    ensures i < n && SlotOf(sorted, i) == name
  {
    if name == SlotOf(sorted, n - 1) {
      i := n - 1;
    } else {
      i := SlotMapInverse(sorted, n - 1, name);
    }
  }

  lemma {:induction false} SlotMapAt(sorted: seq<Decl>, n: nat, i: nat)
    requires i < n <= |sorted|
    ensures SlotOf(sorted, i) in SlotMap(sorted, n) && SlotMap(sorted, n)[SlotOf(sorted, i)] == sorted[i]
  {
    if i < n - 1 {
      SlotMapAt(sorted, n - 1, i);
      SlotsDiffer(sorted, i, n - 1);
    }
  }

  // The loop's state after n declarations: every slot handed out is the declaration's rank.
  ghost predicate BoundFirst(sorted: seq<Decl>, n: nat, b: Binding)
    requires n <= |sorted|
  {
    && !b.panicked
    && b.decls == SlotMap(sorted, n)
    && (n == 0 ==> b.offset == 0 && b.scope == 0)
    && (n > 0 ==> b.scope == sorted[n - 1].scopeId && b.offset == |OfScope(sorted[..n], b.scope)|)
  }

  // The offset the loop uses for declaration n is its rank.
  lemma LoopOffset(sorted: seq<Decl>, n: nat, b: Binding)
    requires n < |sorted| && ContinuesOrStarts(sorted, n)
    requires n == 0 ==> b.offset == 0 && b.scope == 0
    requires n > 0 ==> b.scope == sorted[n - 1].scopeId && b.offset == |OfScope(sorted[..n], b.scope)|
    ensures (if sorted[n].scopeId != b.scope then 0 else b.offset) == |OfScope(sorted[..n], sorted[n].scopeId)|
  {
    if n > 0 && sorted[n].scopeId != b.scope {
      OfScopeEmpty(sorted[..n], sorted[n].scopeId);
    }
  }

  lemma BindOneKeeps(sorted: seq<Decl>, n: nat, b: Binding)
    requires Grouped(sorted) && n < |sorted| && BoundFirst(sorted, n, b)
    ensures BoundFirst(sorted, n + 1, BindOne(b, sorted[n]))
  {
    assert ContinuesOrStarts(sorted, n);
    LoopOffset(sorted, n, b);
    SlotMapFresh(sorted, n, n);
    assert sorted[..n + 1][..n] == sorted[..n];
  }

  lemma {:induction false} BindFirstCorrect(sorted: seq<Decl>, n: nat)
    requires Grouped(sorted) && n <= |sorted|
    ensures BoundFirst(sorted, n, BindFirst(sorted, n))
  {
    if n > 0 {
      BindFirstCorrect(sorted, n - 1);
      BindOneKeeps(sorted, n - 1, BindFirst(sorted, n - 1));
    }
  }

  lemma SortGroups(decls: seq<Decl>)
    requires Bindable(decls)
    ensures Grouped(SortByDepth(decls))
  {
    SortOrdered(decls);
    SortMembers(decls);
    var sorted := SortByDepth(decls);
    forall i | 0 <= i < |sorted|
      ensures sorted[i].identifier.scopeId == sorted[i].scopeId
    {
      assert sorted[i] in decls;
    }
    forall k | 0 <= k < |sorted|
      ensures ContinuesOrStarts(sorted, k)
    {
      OrderedIsGrouped(sorted, k);
    }
  }

  // Each scope's slots are exactly 0..n-1 in declaration order, and there are no others.
  ghost predicate DenseSlots(decls: seq<Decl>, names: Names) {
    && (forall i :: 0 <= i < |decls| ==> SlotOf(decls, i) in names.decls && names.decls[SlotOf(decls, i)] == decls[i])
    && (forall name :: name in names.decls ==>
          && name.offset < |OfScope(decls, name.scope)|
          && names.decls[name] == OfScope(decls, name.scope)[name.offset]
          && name.depth == names.decls[name].depth % 256)
    && |names.decls| == |decls|
  }

  lemma SlotSurvivesSort(decls: seq<Decl>, p: nat, i: nat)
    requires Bindable(decls) && p < |decls| && i < |decls|
    requires SortByDepth(decls)[p] == decls[i]
    requires forall a, b :: 0 <= a < b < |decls| ==> decls[a] != decls[b]
    ensures SlotOf(SortByDepth(decls), p) == SlotOf(decls, i)
  {
    var sorted := SortByDepth(decls);
    var sid := decls[i].scopeId;
    SortStable(decls, sid);
    OfScopeRank(sorted, p);
    OfScopeRank(decls, i);
    var a, b := |OfScope(sorted[..p], sid)|, |OfScope(decls[..i], sid)|;
    if a < b {
      OfScopeDistinct(decls, sid, a, b);
    } else if b < a {
      OfScopeDistinct(decls, sid, b, a);
    }
  }

  lemma {:induction false} OfScopeMembers(decls: seq<Decl>, sid: nat)
    ensures forall d :: d in OfScope(decls, sid) ==> d in decls
  {
    if decls != [] {
      OfScopeMembers(decls[..|decls| - 1], sid);
    }
  }

  lemma {:induction false} OfScopeDistinct(decls: seq<Decl>, sid: nat, a: nat, b: nat)
    requires forall i, j :: 0 <= i < j < |decls| ==> decls[i] != decls[j]
    requires a < b < |OfScope(decls, sid)|
    ensures OfScope(decls, sid)[a] != OfScope(decls, sid)[b]
  {
    var last := |decls| - 1;
    var rest := OfScope(decls[..last], sid);
    if b < |rest| {
      OfScopeDistinct(decls[..last], sid, a, b);
    } else {
      OfScopeMembers(decls[..last], sid);
      assert rest[a] in decls[..last];
    }
  }

  // `bind` never panics on declarations a legal run leaves behind, and gives each its rank.
  lemma BindIsDense(decls: seq<Decl>)
    requires Bindable(decls)
    requires forall a, b :: 0 <= a < b < |decls| ==> decls[a] != decls[b]
    ensures Bind(decls).Some? && DenseSlots(decls, Bind(decls).value)
  {
    var sorted := SortByDepth(decls);
    SortGroups(decls);
    BindFirstCorrect(sorted, |sorted|);
    SlotMapSize(sorted, |sorted|);
    forall i | 0 <= i < |decls|
      ensures SlotOf(decls, i) in SlotMap(sorted, |sorted|) && SlotMap(sorted, |sorted|)[SlotOf(decls, i)] == decls[i]
    {
      SortMembers(decls);
      assert decls[i] in sorted;
      var p :| 0 <= p < |sorted| && sorted[p] == decls[i];
      SlotSurvivesSort(decls, p, i);
      SlotMapAt(sorted, |sorted|, p);
    }
    forall name | name in SlotMap(sorted, |sorted|)
      ensures name.offset < |OfScope(decls, name.scope)|
      ensures SlotMap(sorted, |sorted|)[name] == OfScope(decls, name.scope)[name.offset]
      ensures name.depth == SlotMap(sorted, |sorted|)[name].depth % 256
    {
      var p := SlotMapInverse(sorted, |sorted|, name);
      OfScopeRank(sorted, p);
      SortStable(decls, name.scope);
      SlotMapAt(sorted, |sorted|, p);
    }
  }

  lemma InvIsBindable(s: Scopes)
    requires Inv(s)
    ensures Bindable(s.variables)
    ensures forall a, b :: 0 <= a < b < |s.variables| ==> s.variables[a] != s.variables[b]
  {
    forall a, b | 0 <= a < b < |s.variables|
      ensures s.variables[a] != s.variables[b]
    {
      assert DeclOk(s.variables[a], a) && DeclOk(s.variables[b], b);
    }
  }

  // After any legal run, `bind` succeeds and every declaration has its own dense slot.
  lemma EveryRunBinds(s: Scopes, ops: seq<Op>)
    requires Inv(s) && LegalRun(s, ops)
    ensures Bind(Run(s, ops).variables).Some?
    ensures DenseSlots(Run(s, ops).variables, Bind(Run(s, ops).variables).value)
  {
    RunKeepsInv(s, ops);
    InvIsBindable(Run(s, ops));
    BindIsDense(Run(s, ops).variables);
  }

}
