/**
 What a name means, said without the search: the first variable of that name in the innermost scope that holds one.
 And what a declaration does to it: the name means the variable handed back, and no other name changes its meaning.
 */
module ScopeLookup {

  import opened Prelude
  import opened VarScope

  // ---------------------------------------------------------------- the meaning of a name

  ghost predicate Unnamed(scope: seq<Variable>, name: Symbol) {
    forall i :: 0 <= i < |scope| ==> scope[i].nr != Named(name)
  }

  // The variable at index `i` of scope `k` is the one the name means.
  ghost predicate MeansAt(scopes: seq<seq<Variable>>, name: Symbol, k: int, i: int) {
    && 0 <= k < |scopes| && 0 <= i < |scopes[k]|
    && scopes[k][i].nr == Named(name)
    && (forall j :: 0 <= j < i ==> scopes[k][j].nr != Named(name))
    && (forall m :: k < m < |scopes| ==> Unnamed(scopes[m], name))
  }

  ghost predicate Means(scopes: seq<seq<Variable>>, name: Symbol, v: Variable) {
    exists k, i :: MeansAt(scopes, name, k, i) && scopes[k][i] == v
  }

  ghost predicate Undeclared(scopes: seq<seq<Variable>>, name: Symbol) {
    forall k :: 0 <= k < |scopes| ==> Unnamed(scopes[k], name)
  }

  lemma {:induction false} FirstNamedAt(scope: seq<Variable>, name: Symbol) returns (i: nat)
    ensures FirstNamed(scope, name).None? <==> Unnamed(scope, name)
    ensures FirstNamed(scope, name).Some? ==>
      && i < |scope| && scope[i] == FirstNamed(scope, name).value && scope[i].nr == Named(name)
      && forall j :: 0 <= j < i ==> scope[j].nr != Named(name)
  {
    i := 0;
    if scope != [] && scope[0].nr != Named(name) {
      var k := FirstNamedAt(scope[1..], name);
      assert forall j :: 0 < j < |scope| ==> scope[j] == scope[1..][j - 1];
      i := k + 1;
    }
  }

  // There is one meaning at most.
  lemma MeansOnce(scopes: seq<seq<Variable>>, name: Symbol, k: int, i: int, m: int, j: int)
    requires MeansAt(scopes, name, k, i) && MeansAt(scopes, name, m, j)
    ensures k == m && i == j
  {
    assert !Unnamed(scopes[m], name) && !Unnamed(scopes[k], name);
  }

  lemma {:induction false} ResolveFinds(scopes: seq<seq<Variable>>, name: Symbol)
    ensures match Resolve(scopes, name)
      case None => Undeclared(scopes, name)
      case Some(v) => Means(scopes, name, v)
  {
    if scopes != [] {
      var last := |scopes| - 1;
      var i := FirstNamedAt(scopes[last], name);
      if FirstNamed(scopes[last], name).Some? {
        assert MeansAt(scopes, name, last, i);
      } else {
        hide Means, Undeclared, Unnamed, FirstNamed;
        ResolveFinds(scopes[..last], name);
        if Resolve(scopes[..last], name).Some? {
          MeansStill(scopes, name, Resolve(scopes[..last], name).value);
        } else {
          UndeclaredStill(scopes, name);
        }
      }
    }
  }

  // A last scope without the name leaves its meaning.
  lemma MeansStill(scopes: seq<seq<Variable>>, name: Symbol, v: Variable)
    requires scopes != [] && Means(scopes[..|scopes| - 1], name, v) && Unnamed(scopes[|scopes| - 1], name)
    ensures Means(scopes, name, v)
  {
    var last := |scopes| - 1;
    var k, j :| MeansAt(scopes[..last], name, k, j) && scopes[..last][k][j] == v;
    assert MeansAt(scopes, name, k, j);
  }

  lemma UndeclaredStill(scopes: seq<seq<Variable>>, name: Symbol)
    requires scopes != [] && Undeclared(scopes[..|scopes| - 1], name) && Unnamed(scopes[|scopes| - 1], name)
    ensures Undeclared(scopes, name)
  {
    hide Unnamed;
    var last := |scopes| - 1;
    assert forall k :: 0 <= k < last ==> scopes[k] == scopes[..last][k];
  }

  // Lookup, exactly: which variable it gives, and when it gives none.
  lemma ResolveExactly(scopes: seq<seq<Variable>>, name: Symbol)
    ensures forall v :: Resolve(scopes, name) == Some(v) <==> Means(scopes, name, v)
    ensures Resolve(scopes, name) == None <==> Undeclared(scopes, name)
  {
    ResolveFinds(scopes, name);
    forall v | Means(scopes, name, v)
      ensures Resolve(scopes, name) == Some(v)
    {
      var k, i :| MeansAt(scopes, name, k, i) && scopes[k][i] == v;
      assert !Unnamed(scopes[k], name);
      var w := Resolve(scopes, name).value;
      var m, j :| MeansAt(scopes, name, m, j) && scopes[m][j] == w;
      MeansOnce(scopes, name, k, i, m, j);
    }
  }

  // ---------------------------------------------------------------- declarations

  // The scope a declaration puts its name in.
  function HomeOf(s: Scopes, op: Op): nat
    requires |s.scopes| >= 1
  {
    if op.FindOrAddGlobal? then 0 else |s.scopes| - 1
  }

  predicate NamesVariable(op: Op) {
    op.FindOrAddGlobal? || op.FindOrAddScoped? || op.DeclareOrUse? || op.DeclareName? || op.DeclareConst? || op.DeclareForInner?
  }

  // Whether the operation adds a variable, from what is visible.
  ghost predicate Adds(s: Scopes, op: Op)
    requires NamesVariable(op) && |s.scopes| >= 1
  {
    match op
    case FindOrAddGlobal(name, _) => Undeclared(s.scopes, name)
    case FindOrAddScoped(name, _) => Undeclared(s.scopes, name)
    case DeclareForInner(name, _) => |s.scopes| >= 2 && Unnamed(s.scopes[|s.scopes| - 1], name)
    case _ => Unnamed(s.scopes[|s.scopes| - 1], op.name)
  }

  // The new declaration, and the one scope that shows it.
  ghost predicate AddsTo(s: Scopes, s': Scopes, op: Op, v: Variable)
    requires NamesVariable(op) && |s.scopes| == |s.stack| >= 1
  {
    var home := HomeOf(s, op);
    var stored := if op.DeclareForInner? then home - 1 else home;
    && stored >= 0
    && v == Variable(|s.variables| % U16, Named(op.name), s.stack[stored])
    && s' == s.(variables := s.variables + [Decl(v, stored, op.DeclareConst?, op.declType, s.stack[stored])],
                scopes := s.scopes[home := s.scopes[home] + [v]])
  }

  lemma StepAdds(s: Scopes, op: Op)
    requires NamesVariable(op) && |s.scopes| == |s.stack| >= 1
    ensures var (s', v) := Step(s, op);
      if Adds(s, op) then v.Some? && AddsTo(s, s', op, v.value)
      else s' == s && (v.Some? <==> op.FindOrAddGlobal? || op.FindOrAddScoped? || op.DeclareOrUse?)
  {
    hide NewUnboundVariable, NewInnerVariable, Resolve, Undeclared, Unnamed, AddsTo;
    ResolveExactly(s.scopes, op.name);
    if op.DeclareForInner? {
      InnerAdds(s, op);
    } else {
      if Undeclared(s.scopes, op.name) { HomeUnnamed(s, op); }
      UnboundAdds(s, op);
    }
  }

  // What the step does with a name that it may declare at its home.
  function Declared(s: Scopes, op: Op): (r: (Scopes, Option<Variable>))
    requires NamesVariable(op) && !op.DeclareForInner? && |s.scopes| == |s.stack| >= 1
  {
    NewUnboundVariable(s, op.name, HomeOf(s, op), op.DeclareConst?, if op.DeclareName? || op.DeclareConst? then New else Reuse, op.declType)
  }

  lemma UnboundAdds(s: Scopes, op: Op)
    requires NamesVariable(op) && !op.DeclareForInner? && |s.scopes| == |s.stack| >= 1
    ensures var (s', v) := Declared(s, op);
      if Unnamed(s.scopes[HomeOf(s, op)], op.name) then v.Some? && AddsTo(s, s', op, v.value)
      else s' == s && (v.Some? <==> op.FindOrAddGlobal? || op.FindOrAddScoped? || op.DeclareOrUse?)
  {
    var i := FirstNamedAt(s.scopes[HomeOf(s, op)], op.name);
    hide FirstNamed, Unnamed;
  }

  lemma InnerAdds(s: Scopes, op: Op)
    requires op.DeclareForInner? && |s.scopes| == |s.stack| >= 1
    ensures var (s', v) := NewInnerVariable(s, op.name, op.declType);
      if |s.scopes| >= 2 && Unnamed(s.scopes[|s.scopes| - 1], op.name) then v.Some? && AddsTo(s, s', op, v.value)
      else s' == s && v.None?
  {
    var i := FirstNamedAt(s.scopes[|s.scopes| - 1], op.name);
    hide FirstNamed, Unnamed;
  }

  lemma HomeUnnamed(s: Scopes, op: Op)
    requires NamesVariable(op) && |s.scopes| >= 1 && Undeclared(s.scopes, op.name)
    ensures Unnamed(s.scopes[HomeOf(s, op)], op.name)
  {
  }

  // A variable put last in a scope, where neither it nor a later scope has the name, becomes the name's meaning.
  lemma AddedMeans(scopes: seq<seq<Variable>>, name: Symbol, home: nat, v: Variable)
    requires home < |scopes| && v.nr == Named(name)
    requires forall m :: home <= m < |scopes| ==> Unnamed(scopes[m], name)
    ensures Resolve(scopes[home := scopes[home] + [v]], name) == Some(v)
  {
    var after := scopes[home := scopes[home] + [v]];
    assert MeansAt(after, name, home, |scopes[home]|);
    ResolveExactly(after, name);
  }

  lemma OthersUnchanged(scopes: seq<seq<Variable>>, name: Symbol, home: nat, v: Variable)
    requires home < |scopes| && v.nr != Named(name)
    ensures Resolve(scopes[home := scopes[home] + [v]], name) == Resolve(scopes, name)
  {
    var after := scopes[home := scopes[home] + [v]];
    ResolveExactly(scopes, name);
    ResolveExactly(after, name);
    if Resolve(scopes, name).Some? {
      var w := Resolve(scopes, name).value;
      var k, i :| MeansAt(scopes, name, k, i) && scopes[k][i] == w;
      assert MeansAt(after, name, k, i);
    } else {
      assert Undeclared(after, name);
    }
  }

  lemma InnermostMeans(scopes: seq<seq<Variable>>, name: Symbol)
    requires scopes != [] && FirstNamed(scopes[|scopes| - 1], name).Some?
    ensures Resolve(scopes, name) == FirstNamed(scopes[|scopes| - 1], name)
  {
  }

  lemma FoundMeans(s: Scopes, op: Op)
    requires NamesVariable(op) && |s.scopes| == |s.stack| >= 1 && !Adds(s, op)
    ensures Step(s, op).1.Some? ==> Resolve(s.scopes, op.name) == Step(s, op).1
  {
    hide MeansAt, Means, Push, NewInnerVariable;
    StepAdds(s, op);
    ResolveExactly(s.scopes, op.name);
    if op.DeclareOrUse? {
      var i := FirstNamedAt(s.scopes[|s.scopes| - 1], op.name);
      hide Resolve, Unnamed;
      InnermostMeans(s.scopes, op.name);
    }
  }

  // Right after any operation that hands a named variable back, the name means that variable, and every other name
  // means what it did. A refused declaration changes nothing.
  lemma DeclaredResolves(s: Scopes, op: Op, other: Symbol)
    requires NamesVariable(op) && |s.scopes| == |s.stack| >= 1
    ensures var (s', v) := Step(s, op);
      && (v.Some? ==> Resolve(s'.scopes, op.name) == v)
      && (v.None? ==> s' == s)
      && (other != op.name ==> Resolve(s'.scopes, other) == Resolve(s.scopes, other))
  {
    StepAdds(s, op);
    var (s', v) := Step(s, op);
    if Adds(s, op) {
      AddedMeans(s.scopes, op.name, HomeOf(s, op), v.value);
      if other != op.name { OthersUnchanged(s.scopes, other, HomeOf(s, op), v.value); }
    } else {
      FoundMeans(s, op);
    }
  }

  // ---------------------------------------------------------------- registers

  function RegisterCount(decls: seq<Decl>): (n: nat)
    ensures n <= |decls|
  {
    if decls == [] then 0
    else RegisterCount(decls[..|decls| - 1]) + (if decls[|decls| - 1].identifier.nr.Register? then 1 else 0)
  }

  // A register's number is how many registers came before it.
  ghost predicate Numbered(decls: seq<Decl>) {
    forall i :: 0 <= i < |decls| && decls[i].identifier.nr.Register? ==> decls[i].identifier.nr.num == RegisterCount(decls[..i])
  }

  ghost predicate RegistersOk(s: Scopes) {
    s.numRegisters == RegisterCount(s.variables) % U16 && Numbered(s.variables)
  }

  lemma NumberedGrows(decls: seq<Decl>, d: Decl)
    requires Numbered(decls) && (d.identifier.nr.Register? ==> d.identifier.nr.num == RegisterCount(decls))
    ensures Numbered(decls + [d])
    ensures RegisterCount(decls + [d]) == RegisterCount(decls) + (if d.identifier.nr.Register? then 1 else 0)
  {
    var all := decls + [d];
    assert all[..|decls|] == decls;
    forall i | 0 <= i < |all| && all[i].identifier.nr.Register?
      ensures all[i].identifier.nr.num == RegisterCount(all[..i])
    {
      if i < |decls| { assert all[..i] == decls[..i]; }
    }
  }

  lemma RegisterNumbers(s: Scopes)
    requires Legal(s, DeclareRegister) && RegistersOk(s)
    ensures RegistersOk(Step(s, DeclareRegister).0)
  {
    hide Numbered, RegisterCount;
    var s' := Step(s, DeclareRegister).0;
    NumberedGrows(s.variables, s'.variables[|s.variables|]);
  }

  lemma NamingNumbers(s: Scopes, op: Op)
    requires NamesVariable(op) && |s.scopes| == |s.stack| >= 1 && RegistersOk(s)
    ensures RegistersOk(Step(s, op).0)
  {
    hide Step, Numbered, RegisterCount, Adds;
    StepAdds(s, op);
    var s' := Step(s, op).0;
    if Adds(s, op) { NumberedGrows(s.variables, s'.variables[|s.variables|]); }
  }

  lemma StepNumbers(s: Scopes, op: Op)
    requires Legal(s, op) && RegistersOk(s)
    ensures RegistersOk(Step(s, op).0)
  {
    hide Numbered, RegisterCount;
    if op.DeclareRegister? {
      RegisterNumbers(s);
    } else if NamesVariable(op) {
      NamingNumbers(s, op);
    }
  }

  lemma {:induction false} RunNumbers(s: Scopes, ops: seq<Op>)
    requires Inv(s) && LegalRun(s, ops) && RegistersOk(s)
    ensures RegistersOk(Run(s, ops))
    decreases |ops|
  {
    if ops != [] {
      StepKeepsInv(s, ops[0]);
      StepNumbers(s, ops[0]);
      RunNumbers(Step(s, ops[0]).0, ops[1..]);
    }
  }

  lemma {:induction false} CountGrows(decls: seq<Decl>, i: nat, j: nat)
    requires i < j <= |decls| && decls[i].identifier.nr.Register?
    ensures RegisterCount(decls[..i]) < RegisterCount(decls[..j])
    decreases j
  {
    assert decls[..j][..j - 1] == decls[..j - 1];
    if i < j - 1 { CountGrows(decls, i, j - 1); }
  }

  // No two registers of a run have the same number.
  lemma RegistersDiffer(s: Scopes, ops: seq<Op>, i: nat, j: nat)
    requires Inv(s) && LegalRun(s, ops) && RegistersOk(s)
    requires i < j < |Run(s, ops).variables|
    requires Run(s, ops).variables[i].identifier.nr.Register? && Run(s, ops).variables[j].identifier.nr.Register?
    ensures Run(s, ops).variables[i].identifier.nr != Run(s, ops).variables[j].identifier.nr
  {
    RunNumbers(s, ops);
    CountGrows(Run(s, ops).variables, i, j);
  }

  lemma EmptyNumbered()
    ensures RegistersOk(Empty)
  {
  }

}
