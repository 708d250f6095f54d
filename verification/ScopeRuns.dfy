/**
 What holds over whole runs of scope operations: the width reported when a scope closes is the
 number of slots it finally gets, and a closed block leaves the meaning of outer names alone.
 */
module ScopeRuns {

  import opened VarScope
  import opened ScopeBinding

  // ---------------------------------------------------------------- declarations only append

  lemma StepAppends(s: Scopes, op: Op)
    requires Legal(s, op)
    ensures var s' := Step(s, op).0;
      || s'.variables == s.variables
      || (exists d :: s'.variables == s.variables + [d] && d.scopeId in s.stack)
  {
    var s' := Step(s, op).0;
    if s'.variables != s.variables {
      var d := s'.variables[|s.variables|];
      assert s'.variables == s.variables + [d] && d.scopeId in s.stack;
    }
  }

  lemma {:induction false} RunAppends(s: Scopes, ops: seq<Op>)
    requires LegalRun(s, ops)
    ensures s.variables <= Run(s, ops).variables
    decreases |ops|
  {
    if ops != [] {
      StepAppends(s, ops[0]);
      RunAppends(Step(s, ops[0]).0, ops[1..]);
    }
  }

  // ---------------------------------------------------------------- closed scopes

  ghost predicate Closed(s: Scopes, scopeId: nat) {
    scopeId <= s.scopeIdSeq && scopeId !in s.stack
  }

  lemma StepStack(s: Scopes, op: Op)
    requires Legal(s, op)
    ensures var s' := Step(s, op).0;
      || (s'.stack == s.stack && s'.scopeIdSeq == s.scopeIdSeq)
      || (s'.stack == s.stack + [s.scopeIdSeq + 1] && s'.scopeIdSeq == s.scopeIdSeq + 1)
      || (s'.stack == s.stack[..|s.stack| - 1] && s'.scopeIdSeq == s.scopeIdSeq)
  {
  }

  lemma StepFreezes(s: Scopes, op: Op, scopeId: nat)
    requires Legal(s, op) && Closed(s, scopeId)
    ensures Closed(Step(s, op).0, scopeId)
    ensures OfScope(Step(s, op).0.variables, scopeId) == OfScope(s.variables, scopeId)
  {
    StepStack(s, op);
    StepAppends(s, op);
    var s' := Step(s, op).0;
    if s'.variables != s.variables {
      assert s'.variables[..|s.variables|] == s.variables;
    }
  }

  lemma {:induction false} RunFreezes(s: Scopes, ops: seq<Op>, scopeId: nat)
    requires LegalRun(s, ops) && Closed(s, scopeId)
    ensures OfScope(Run(s, ops).variables, scopeId) == OfScope(s.variables, scopeId)
    decreases |ops|
  {
    if ops != [] {
      StepFreezes(s, ops[0], scopeId);
      RunFreezes(Step(s, ops[0]).0, ops[1..], scopeId);
    }
  }

  lemma {:induction false} AllNamed(decls: seq<Decl>)
    requires forall d :: d in decls ==> d.identifier.nr.Named?
    ensures NamedCount(decls) == |decls|
  {
    if decls != [] { AllNamed(decls[..|decls| - 1]); }
  }

  // Registers live in the outermost scope, so an inner scope's width counts everything in it.
  lemma InnerWidth(s: Scopes)
    requires Inv(s) && |s.scopes| >= 2
    ensures ExitWidth(s) == |OfScope(s.variables, s.stack[|s.stack| - 1])|
  {
    var sid := s.stack[|s.stack| - 1];
    assert sid > s.stack[0];
    var own := OfScope(s.variables, sid);
    forall d | d in own
      ensures d.identifier.nr.Named?
    {
      OfScopeMembers(s.variables, sid);
      OfScopeIds(s.variables, sid);
      var i :| 0 <= i < |s.variables| && s.variables[i] == d;
      assert DeclOk(s.variables[i], i);
    }
    AllNamed(own);
  }

  lemma {:induction false} OfScopeIds(decls: seq<Decl>, sid: nat)
    ensures forall d :: d in OfScope(decls, sid) ==> d.scopeId == sid
  {
    if decls != [] { OfScopeIds(decls[..|decls| - 1], sid); }
  }

  // ---------------------------------------------------------------- counting slots

  ghost function SlotsOf(names: Names, scopeId: nat): set<Name> {
    set n | n in names.decls && n.scope == scopeId
  }

  ghost function SlotsBelow(names: Names, scopeId: nat, k: nat): set<Name> {
    set n | n in names.decls && n.scope == scopeId && n.offset < k
  }

  lemma {:induction false} SlotAtRank(decls: seq<Decl>, scopeId: nat, k: nat) returns (i: nat)
    requires k < |OfScope(decls, scopeId)|
    ensures i < |decls| && decls[i].scopeId == scopeId && |OfScope(decls[..i], scopeId)| == k
    decreases |decls|
  {
    var last := |decls| - 1;
    if k < |OfScope(decls[..last], scopeId)| {
      i := SlotAtRank(decls[..last], scopeId, k);
      assert decls[..last][..i] == decls[..i];
    } else {
      i := last;
    }
  }

  // A name is determined by its scope and offset.
  lemma SlotUnique(decls: seq<Decl>, names: Names, a: Name, b: Name)
    requires DenseSlots(decls, names) && a in names.decls && b in names.decls
    requires a.scope == b.scope && a.offset == b.offset
    ensures a == b
  {
    assert names.decls[a] == OfScope(decls, a.scope)[a.offset];
    assert names.decls[b] == OfScope(decls, b.scope)[b.offset];
  }

  lemma {:induction false} CountBelow(decls: seq<Decl>, names: Names, scopeId: nat, k: nat)
    requires DenseSlots(decls, names) && k <= |OfScope(decls, scopeId)|
    ensures |SlotsBelow(names, scopeId, k)| == k
  {
    if k == 0 {
      assert SlotsBelow(names, scopeId, 0) == {};
    } else {
      CountBelow(decls, names, scopeId, k - 1);
      var i := SlotAtRank(decls, scopeId, k - 1);
      AddSlot(decls, names, k - 1, SlotOf(decls, i));
    }
  }

  lemma AddSlot(decls: seq<Decl>, names: Names, k: nat, name: Name)
    requires DenseSlots(decls, names) && name in names.decls && name.offset == k
    ensures |SlotsBelow(names, name.scope, k + 1)| == |SlotsBelow(names, name.scope, k)| + 1
  {
    forall n | n in names.decls && n.scope == name.scope && n.offset == k
      ensures n == name
    {
      SlotUnique(decls, names, n, name);
    }
    assert SlotsBelow(names, name.scope, k + 1) == SlotsBelow(names, name.scope, k) + {name};
  }

  lemma SlotCount(decls: seq<Decl>, names: Names, scopeId: nat)
    requires DenseSlots(decls, names)
    ensures |SlotsOf(names, scopeId)| == |OfScope(decls, scopeId)|
  {
    var n := |OfScope(decls, scopeId)|;
    CountBelow(decls, names, scopeId, n);
    assert SlotsOf(names, scopeId) == SlotsBelow(names, scopeId, n);
  }

  // The width `exit_scope` returns is the number of slots `bind` gives that scope in the end,
  // however the run goes on.
  lemma ExitWidthIsFinal(s: Scopes, ops: seq<Op>)
    requires Inv(s) && Legal(s, ExitScope) && LegalRun(Step(s, ExitScope).0, ops)
    ensures var final := Run(Step(s, ExitScope).0, ops);
      && Bind(final.variables).Some?
      && |SlotsOf(Bind(final.variables).value, s.stack[|s.stack| - 1])| == ExitWidth(s)
  {
    var sid := s.stack[|s.stack| - 1];
    var s1 := Step(s, ExitScope).0;
    StepKeepsInv(s, ExitScope);
    InnerWidth(s);
    assert Closed(s1, sid);
    RunFreezes(s1, ops, sid);
    EveryRunBinds(s1, ops);
    var final := Run(s1, ops);
    SlotCount(final.variables, Bind(final.variables).value, sid);
  }

  lemma {:induction false} Depth0IsScope0(decls: seq<Decl>)
    requires forall i :: 0 <= i < |decls| ==> (decls[i].depth == 0 <==> decls[i].scopeId == 0)
    ensures AtDepth0(decls) == |OfScope(decls, 0)|
  {
    if decls != [] { Depth0IsScope0(decls[..|decls| - 1]); }
  }

  // `global_width` is the number of slots the outermost scope gets.
  lemma GlobalWidthIsFinal(s: Scopes, ops: seq<Op>)
    requires Inv(s) && LegalRun(s, ops)
    ensures var bound := Bind(Run(s, ops).variables);
      bound.Some? && bound.value.globalWidth == |SlotsOf(bound.value, 0)|
  {
    var final := Run(s, ops);
    RunKeepsInv(s, ops);
    EveryRunBinds(s, ops);
    SlotCount(final.variables, Bind(final.variables).value, 0);
    forall i | 0 <= i < |final.variables|
      ensures final.variables[i].depth == 0 <==> final.variables[i].scopeId == 0
    {
      assert final.stack[0] == 0;
    }
    Depth0IsScope0(final.variables);
  }

  lemma SlotOfDecl(decls: seq<Decl>, names: Names, i: nat, name: Name)
    requires DenseSlots(decls, names) && i < |decls| && name in names.decls && names.decls[name] == decls[i]
    requires forall a, b :: 0 <= a < b < |decls| ==> decls[a] != decls[b]
    ensures name == SlotOf(decls, i)
  {
    OfScopeIds(decls, name.scope);
    OfScopeRank(decls, i);
    var a, b := name.offset, SlotOf(decls, i).offset;
    if a < b {
      OfScopeDistinct(decls, name.scope, a, b);
    } else if b < a {
      OfScopeDistinct(decls, name.scope, b, a);
    }
    SlotUnique(decls, names, name, SlotOf(decls, i));
  }

  lemma BoundDeclIndex(s: Scopes, names: Names, name: Name, i: nat)
    requires Inv(s) && DenseSlots(s.variables, names) && name in names.decls && i < |s.variables|
    requires names.decls[name].identifier == s.variables[i].identifier
    ensures names.decls[name] == s.variables[i]
  {
    OfScopeMembers(s.variables, name.scope);
    assert names.decls[name] == OfScope(s.variables, name.scope)[name.offset];
    assert names.decls[name] in s.variables;
    var j :| 0 <= j < |s.variables| && s.variables[j] == names.decls[name];
    assert DeclOk(s.variables[j], j) && DeclOk(s.variables[i], i);
  }

  // However the run goes on, a declared variable gets exactly one slot, in the scope that
  // stores it.
  lemma VariableOwnSlot(s: Scopes, ops: seq<Op>, i: nat, name: Name)
    requires Inv(s) && LegalRun(s, ops) && i < |s.variables|
    ensures var final := Run(s, ops);
      && i < |final.variables| && Bind(final.variables).Some?
      && SlotOf(final.variables, i).scope == s.variables[i].scopeId
      && var names := Bind(final.variables).value;
      (name in names.decls && names.decls[name].identifier == s.variables[i].identifier
       <==> name == SlotOf(final.variables, i))
  {
    RunAppends(s, ops);
    EveryRunBinds(s, ops);
    RunKeepsInv(s, ops);
    var final := Run(s, ops);
    assert final.variables[i] == s.variables[i];
    var names := Bind(final.variables).value;
    if name in names.decls && names.decls[name].identifier == s.variables[i].identifier {
      BoundDeclIndex(final, names, name, i);
      InvIsBindable(final);
      SlotOfDecl(final.variables, names, i, name);
    }
  }

  lemma InnerStepStores(s: Scopes, op: Op)
    requires op.DeclareForInner? && Legal(s, op) && Step(s, op).1.Some?
    ensures var s1 := Step(s, op).0;
      && |s.stack| >= 2 && |s1.variables| == |s.variables| + 1
      && s1.variables[|s.variables|].identifier == Step(s, op).1.value
      && s1.variables[|s.variables|].scopeId == s.stack[|s.stack| - 2]
  {
  }

  // A comprehension's variable gets its one slot in the scope around the one that sees it.
  lemma InnerVariableOwnSlot(s: Scopes, op: Op, ops: seq<Op>, name: Name)
    requires Inv(s) && op.DeclareForInner? && Legal(s, op) && Step(s, op).1.Some?
    requires LegalRun(Step(s, op).0, ops)
    ensures var final := Run(Step(s, op).0, ops);
      && |s.stack| >= 2 && |s.variables| < |final.variables| && Bind(final.variables).Some?
      && SlotOf(final.variables, |s.variables|).scope == s.stack[|s.stack| - 2]
      && var names := Bind(final.variables).value;
      (name in names.decls && names.decls[name].identifier == Step(s, op).1.value
       <==> name == SlotOf(final.variables, |s.variables|))
  {
    InnerStepStores(s, op);
    StepKeepsInv(s, op);
    VariableOwnSlot(Step(s, op).0, ops, |s.variables|, name);
  }

  // ---------------------------------------------------------------- blocks

  // A run that stays inside the scopes opened after the first `floor` ones.
  ghost predicate Within(s: Scopes, ops: seq<Op>, floor: nat)
    requires LegalRun(s, ops)
    decreases |ops|
  {
    |s.scopes| > floor && (ops == [] || Within(Step(s, ops[0]).0, ops[1..], floor))
  }

  // Declared for the block only: by let, const, scoped or comprehension declarations.
  predicate DeclaresLocally(op: Op) {
    op.FindOrAddScoped? || op.DeclareOrUse? || op.DeclareName? || op.DeclareConst? || op.DeclareForInner?
  }

  ghost function Locals(s: Scopes, ops: seq<Op>): set<Variable>
    requires LegalRun(s, ops)
    decreases |ops|
  {
    if ops == [] then {}
    else
      var (s', v) := Step(s, ops[0]);
      (if DeclaresLocally(ops[0]) && v.Some? && |s'.variables| > |s.variables| then {v.value} else {})
      + Locals(s', ops[1..])
  }

  // The outer scopes are as they were, except that scope 0 may have gained registers and
  // names that meant nothing before.
  ghost predicate Undisturbed(outer: seq<seq<Variable>>, scopes: seq<seq<Variable>>) {
    && 1 <= |outer| <= |scopes|
    && (forall k :: 1 <= k < |outer| ==> scopes[k] == outer[k])
    && outer[0] <= scopes[0]
    && forall v :: v in scopes[0][|outer[0]|..] && v.nr.Named? ==> Resolve(outer, v.nr.sym).None?
  }

  lemma {:induction false} FirstNamedAppend(scope: seq<Variable>, more: seq<Variable>, name: Symbol)
    requires forall v :: v in more ==> v.nr != Named(name)
    ensures FirstNamed(scope + more, name) == FirstNamed(scope, name)
  {
    if scope == [] {
      assert scope + more == more;
      FirstNamedFinds(more, name);
    } else {
      assert (scope + more)[1..] == scope[1..] + more;
      FirstNamedAppend(scope[1..], more, name);
    }
  }

  // Agreement on every scope's own lookup is agreement on what the name means.
  lemma {:induction false} ResolveAgrees(a: seq<seq<Variable>>, b: seq<seq<Variable>>, name: Symbol)
    requires |a| == |b|
    requires forall k :: 0 <= k < |a| ==> FirstNamed(a[k], name) == FirstNamed(b[k], name)
    ensures Resolve(a, name) == Resolve(b, name)
  {
    if a != [] { ResolveAgrees(a[..|a| - 1], b[..|b| - 1], name); }
  }

  lemma OuterNamesKept(outer: seq<seq<Variable>>, scopes: seq<seq<Variable>>, name: Symbol)
    requires Undisturbed(outer, scopes) && |outer| == |scopes| && Resolve(outer, name).Some?
    ensures Resolve(scopes, name) == Resolve(outer, name)
  {
    var more := scopes[0][|outer[0]|..];
    assert scopes[0] == outer[0] + more;
    FirstNamedAppend(outer[0], more, name);
    ResolveAgrees(scopes, outer, name);
  }

  // An unresolvable name stays unresolvable in any part of the scopes.
  lemma {:induction false} ResolvePrefix(scopes: seq<seq<Variable>>, n: nat, name: Symbol)
    requires n <= |scopes| && Resolve(scopes, name).None?
    ensures Resolve(scopes[..n], name).None?
    decreases |scopes|
  {
    if n < |scopes| {
      assert scopes[..|scopes| - 1][..n] == scopes[..n];
      ResolvePrefix(scopes[..|scopes| - 1], n, name);
    } else {
      assert scopes[..n] == scopes;
    }
  }

  lemma UndisturbedPrefix(outer: seq<seq<Variable>>, scopes: seq<seq<Variable>>, name: Symbol)
    requires Undisturbed(outer, scopes) && Resolve(scopes, name).None?
    ensures Resolve(outer, name).None?
  {
    ResolvePrefix(scopes, |outer|, name);
    if Resolve(outer, name).Some? {
      OuterNamesKept(outer, scopes[..|outer|], name);
    }
  }

  lemma StepUndisturbed(outer: seq<seq<Variable>>, s: Scopes, op: Op)
    requires Legal(s, op) && Undisturbed(outer, s.scopes) && |s.scopes| > |outer|
    ensures Undisturbed(outer, Step(s, op).0.scopes)
  {
    var s' := Step(s, op).0;
    if op.FindOrAddGlobal? && s'.scopes != s.scopes {
      UndisturbedPrefix(outer, s.scopes, op.name);
      GrowsScope0(s, op, outer);
    } else if op.DeclareRegister? {
      GrowsScope0(s, op, outer);
    } else {
      assert forall k :: 0 <= k < |outer| ==> s'.scopes[k] == s.scopes[k];
    }
  }

  lemma GrowsScope0(s: Scopes, op: Op, outer: seq<seq<Variable>>)
    requires Legal(s, op) && Undisturbed(outer, s.scopes)
    requires op.DeclareRegister? || (op.FindOrAddGlobal? && Resolve(outer, op.name).None?)
    ensures Undisturbed(outer, Step(s, op).0.scopes)
  {
    var s' := Step(s, op).0;
    if s'.scopes != s.scopes {
      var v := Step(s, op).1.value;
      assert s'.scopes[0] == s.scopes[0] + [v];
      assert s'.scopes[0][|outer[0]|..] == s.scopes[0][|outer[0]|..] + [v];
    }
  }

  lemma {:induction false} RunUndisturbed(outer: seq<seq<Variable>>, s: Scopes, ops: seq<Op>)
    requires LegalRun(s, ops) && |outer| >= 1 && Within(s, ops, |outer|) && Undisturbed(outer, s.scopes)
    ensures Undisturbed(outer, Run(s, ops).scopes)
    decreases |ops|
  {
    if ops != [] {
      StepUndisturbed(outer, s, ops[0]);
      RunUndisturbed(outer, Step(s, ops[0]).0, ops[1..]);
    }
  }

  // No outer scope can see any of the given variables.
  ghost predicate Unseen(scopes: seq<seq<Variable>>, floor: nat, vars: set<Variable>) {
    floor <= |scopes| && forall k, v :: 0 <= k < floor && v in scopes[k] ==> v !in vars
  }

  lemma StepUnseen(s: Scopes, op: Op, floor: nat, vars: set<Variable>)
    requires Inv(s) && Legal(s, op) && |s.scopes| > floor >= 1 && |Step(s, op).0.scopes| >= floor
    requires Unseen(s.scopes, floor, vars) && forall v :: v in vars ==> v.id < |s.variables|
    ensures var (s', v) := Step(s, op);
      && Unseen(s'.scopes, floor, vars)
      && (DeclaresLocally(op) && v.Some? && |s'.variables| > |s.variables|
          ==> v.value.id == |s.variables| && Unseen(s'.scopes, floor, {v.value}))
  {
    var (s', v) := Step(s, op);
    assert |s.variables| % U16 == |s.variables| || op.EnterScope? || op.ExitScope?;
    if DeclaresLocally(op) {
      assert forall k :: 0 <= k < floor ==> s'.scopes[k] == s.scopes[k];
    }
  }

  lemma {:induction false} RunUnseen(s: Scopes, ops: seq<Op>, floor: nat, vars: set<Variable>)
    requires Inv(s) && LegalRun(s, ops) && floor >= 1 && Within(s, ops, floor)
    requires Unseen(s.scopes, floor, vars) && forall v :: v in vars ==> v.id < |s.variables|
    ensures Unseen(Run(s, ops).scopes, floor, vars + Locals(s, ops))
    decreases |ops|
  {
    if ops != [] {
      var (s', v) := Step(s, ops[0]);
      StepKeepsInv(s, ops[0]);
      StepUnseen(s, ops[0], floor, vars);
      StepAppends(s, ops[0]);
      var added := if DeclaresLocally(ops[0]) && v.Some? && |s'.variables| > |s.variables| then {v.value} else {};
      RunUnseen(s', ops[1..], floor, vars + added);
      assert vars + Locals(s, ops) == vars + added + Locals(s', ops[1..]);
    } else {
      assert vars + Locals(s, ops) == vars;
    }
  }

  lemma ResolvesToVisible(scopes: seq<seq<Variable>>, name: Symbol)
    requires Resolve(scopes, name).Some?
    ensures exists k :: 0 <= k < |scopes| && Resolve(scopes, name).value in scopes[k]
  {
    var last := |scopes| - 1;
    FirstNamedFinds(scopes[last], name);
    if FirstNamed(scopes[last], name).None? {
      ResolvesToVisible(scopes[..last], name);
    }
  }

  // A block changes no name that had a meaning before it, and nothing declared for the block
  // can be named after it, whatever globals and registers the block added on the way.
  lemma BlockRestoresNames(s: Scopes, body: seq<Op>, name: Symbol)
    requires Inv(s) && Legal(s, EnterScope)
    requires LegalRun(Step(s, EnterScope).0, body) && Within(Step(s, EnterScope).0, body, |s.scopes|)
    requires Legal(Run(Step(s, EnterScope).0, body), ExitScope)
    requires |Run(Step(s, EnterScope).0, body).scopes| == |s.scopes| + 1
    ensures var s1 := Step(s, EnterScope).0;
      var after := Step(Run(s1, body), ExitScope).0;
      && (Resolve(s.scopes, name).Some? ==> Resolve(after.scopes, name) == Resolve(s.scopes, name))
      && (Resolve(after.scopes, name).Some? ==> Resolve(after.scopes, name).value !in Locals(s1, body))
  {
    var s1 := Step(s, EnterScope).0;
    EnterKeepsInv(s);
    RunUndisturbed(s.scopes, s1, body);
    RunKeepsInv(s1, body);
    RunUnseen(s1, body, |s.scopes|, {});
    var after := Step(Run(s1, body), ExitScope).0;
    assert Undisturbed(s.scopes, after.scopes);
    if Resolve(s.scopes, name).Some? {
      OuterNamesKept(s.scopes, after.scopes, name);
    }
    if Resolve(after.scopes, name).Some? {
      ResolvesToVisible(after.scopes, name);
    }
  }

}
