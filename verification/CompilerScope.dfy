/**
 The compiler's scope object. Its methods update the fields in place, as the compiler does;
 each is tied to the operation of `VarScope` it performs, so that everything proved about runs
 holds of the object.
 */
module CompilerScope {

  import opened Prelude
  import opened VarScope
  import opened ScopeBinding
  import opened ScopeLookup

  // The variables every verb invocation starts with.
  const GLOBAL_NAMES: seq<Symbol> :=
    ["player", "this", "caller", "verb", "args", "argstr", "dobj", "dobjstr", "prepstr", "iobj", "iobjstr"]

  function GlobalOps(names: seq<Symbol>): (ops: seq<Op>)
    ensures |ops| == |names|
  {
    seq(|names|, i requires 0 <= i < |names| => FindOrAddGlobal(names[i], Global))
  }

  class Scope {
    var variables: seq<Decl>
    var scopes: seq<seq<Variable>>
    var scopeIdStack: seq<nat>
    var numRegisters: nat
    var scopeIdSeq: nat

    ghost function View(): Scopes
      reads this
    {
      Scopes(variables, scopes, scopeIdStack, numRegisters, scopeIdSeq)
    }

    ghost predicate Valid()
      reads this
    {
      |scopes| == |scopeIdStack| >= 1
    }

    constructor Default()
      ensures Valid() && View() == Empty
    {
      variables, scopes, scopeIdStack, numRegisters, scopeIdSeq := [], [[]], [0], 0, 0;
    }

    // A fresh scope already knows the global names, in order.
    constructor WithGlobals()
      ensures Valid()
      ensures LegalRun(Empty, GlobalOps(GLOBAL_NAMES)) && View() == Run(Empty, GlobalOps(GLOBAL_NAMES))
      ensures Inv(View())
    {
      variables, scopes, scopeIdStack, numRegisters, scopeIdSeq := [], [[]], [0], 0, 0;
      new;
      ghost var ops := GlobalOps(GLOBAL_NAMES);
      GlobalsLegal(Empty, ops);
      for i := 0 to |GLOBAL_NAMES|
        invariant Valid()
        invariant LegalRun(View(), ops[i..]) && Run(View(), ops[i..]) == Run(Empty, ops)
      {
        assert ops[i..][0] == FindOrAddGlobal(GLOBAL_NAMES[i], Global) && ops[i..][1..] == ops[i + 1..];
        var _ := FindOrAddNameGlobal(GLOBAL_NAMES[i], Global);
      }
      RunKeepsInv(Empty, ops);
    }

    method EnterNewScope()
      requires Valid()
      modifies this
      ensures Valid() && View() == Step(old(View()), EnterScope).0
    {
      scopeIdSeq := (scopeIdSeq + 1) % U16;
      scopeIdStack := scopeIdStack + [scopeIdSeq];
      scopes := scopes + [[]];
    }

    method ExitScope() returns (width: nat)
      requires Valid() && |scopes| >= 2
      modifies this
      ensures Valid() && View() == Step(old(View()), Op.ExitScope).0
      ensures width == ExitWidth(old(View()))
    {
      var scopeId := scopeIdStack[|scopeIdStack| - 1];
      scopes := scopes[..|scopes| - 1];
      scopeIdStack := scopeIdStack[..|scopeIdStack| - 1];
      width := CountStored(variables, scopeId);
    }

    // Everything stored in a scope, registers aside.
    static method CountStored(variables: seq<Decl>, scopeId: nat) returns (count: nat)
      ensures count == NamedCount(OfScope(variables, scopeId))
    {
      count := 0;
      for i := 0 to |variables|
        invariant count == NamedCount(OfScope(variables[..i], scopeId))
      {
        assert variables[..i + 1][..i] == variables[..i];
        NamedCountAppend(OfScope(variables[..i], scopeId), variables[i]);
        if variables[i].scopeId == scopeId && !variables[i].identifier.nr.Register? {
          count := count + 1;
        }
      }
      assert variables[..|variables|] == variables;
    }

    // The innermost scope that declares the name, searched from the back.
    method FindName(name: Symbol) returns (found: Option<Variable>)
      ensures found == Resolve(scopes, name)
      ensures forall v :: found == Some(v) <==> Means(scopes, name, v)
      ensures found == None <==> Undeclared(scopes, name)
    {
      hide Means, Undeclared, FirstNamed;
      ResolveExactly(scopes, name);
      var k := |scopes|;
      assert scopes[..k] == scopes;
      while k > 0
        invariant 0 <= k <= |scopes|
        invariant Resolve(scopes, name) == Resolve(scopes[..k], name)
      {
        k := k - 1;
        assert scopes[..k + 1][..k] == scopes[..k];
        var inScope := FindInScope(scopes[k], name);
        if inScope.Some? {
          return inScope;
        }
      }
      return None;
    }

    static method FindInScope(scope: seq<Variable>, name: Symbol) returns (found: Option<Variable>)
      ensures found == FirstNamed(scope, name)
    {
      var i := 0;
      while i < |scope|
        invariant 0 <= i <= |scope|
        invariant FirstNamed(scope, name) == FirstNamed(scope[i..], name)
      {
        if scope[i].nr == Named(name) {
          return Some(scope[i]);
        }
        assert scope[i..][1..] == scope[i + 1..];
        i := i + 1;
      }
      return None;
    }

    method FindOrAddNameGlobal(name: Symbol, declType: DeclType) returns (v: Option<Variable>)
      requires Valid()
      modifies this
      ensures Valid() && (View(), v) == Step(old(View()), FindOrAddGlobal(name, declType))
    {
      v := FindName(name);
      if v.None? {
        v := NewUnbound(name, 0, false, Reuse, declType);
      }
    }

    method FindOrAddNameScoped(name: Symbol, declType: DeclType) returns (v: Option<Variable>)
      requires Valid()
      modifies this
      ensures Valid() && (View(), v) == Step(old(View()), FindOrAddScoped(name, declType))
    {
      v := FindName(name);
      if v.None? {
        v := NewUnbound(name, |scopes| - 1, false, Reuse, declType);
      }
    }

    method DeclareRegister() returns (v: Variable)
      requires Valid()
      modifies this
      ensures Valid() && (View(), Some(v)) == Step(old(View()), Op.DeclareRegister)
    {
      var r := numRegisters;
      numRegisters := (numRegisters + 1) % U16;
      v := Variable(|variables| % U16, Register(r), scopeIdStack[0]);
      variables := variables + [Decl(v, 0, false, RegisterType, scopeIdStack[0])];
      scopes := scopes[0 := scopes[0] + [v]];
    }

    // `declare`: global names are found or added, constants and locals must be new in their scope.
    method Declare(name: Symbol, constant: bool, global: bool, declType: DeclType) returns (v: Option<Variable>)
      requires Valid()
      modifies this
      ensures Valid()
      ensures (View(), v) == Step(old(View()), if global then FindOrAddGlobal(name, declType)
                                               else if constant then DeclareConst(name, declType)
                                               else DeclareName(name, declType))
    {
      if global {
        v := FindOrAddNameGlobal(name, declType);
      } else {
        v := NewUnbound(name, |scopes| - 1, constant, New, declType);
      }
    }

    method DeclareOrUseName(name: Symbol, declType: DeclType) returns (v: Option<Variable>)
      requires Valid()
      modifies this
      ensures Valid() && (View(), v) == Step(old(View()), DeclareOrUse(name, declType))
    {
      v := NewUnbound(name, |scopes| - 1, false, Reuse, declType);
    }

    method DeclareNameForInnerScope(name: Symbol, declType: DeclType) returns (v: Option<Variable>)
      requires Valid()
      modifies this
      ensures Valid() && (View(), v) == Step(old(View()), DeclareForInner(name, declType))
    {
      var inner := |scopes| - 1;
      if inner == 0 {
        return None;
      }
      var existing := FindInScope(scopes[inner], name);
      if existing.Some? {
        return None;
      }
      var scopeId := scopeIdStack[inner - 1];
      var vr := Variable(|variables| % U16, Named(name), scopeId);
      variables := variables + [Decl(vr, inner - 1, false, declType, scopeId)];
      scopes := scopes[inner := scopes[inner] + [vr]];
      v := Some(vr);
    }

    method NewUnbound(name: Symbol, depth: nat, constant: bool, mode: BindMode, declType: DeclType) returns (v: Option<Variable>)
      requires Valid() && depth < |scopes|
      modifies this
      ensures Valid() && (View(), v) == NewUnboundVariable(old(View()), name, depth, constant, mode, declType)
    {
      var existing := FindInScope(scopes[depth], name);
      if existing.Some? {
        return if mode == New then None else existing;
      }
      var scopeId := scopeIdStack[depth];
      var vr := Variable(|variables| % U16, Named(name), scopeId);
      variables := variables + [Decl(vr, depth, constant, declType, scopeId)];
      scopes := scopes[depth := scopes[depth] + [vr]];
      v := Some(vr);
    }

    // The loop over the sorted declarations; None is the compiler's duplicate panic.
    method BindNames() returns (names: Option<Names>)
      ensures names == ScopeBinding.Bind(variables)
      ensures Inv(View()) ==> names.Some? && DenseSlots(variables, names.value)
    {
      if Inv(View()) {
        InvIsBindable(View());
        BindIsDense(variables);
      }
      var sorted := SortByDepth(variables);
      var decls := AssignSlots(sorted);
      if decls.None? {
        return None;
      }
      var globalWidth := GlobalWidth(variables);
      return Some(Names(globalWidth, decls.value));
    }

    static method AssignSlots(sorted: seq<Decl>) returns (slots: Option<map<Name, Decl>>)
      ensures var b := BindFirst(sorted, |sorted|); slots == if b.panicked then None else Some(b.decls)
    {
      var currentOffset, currentScope := 0, 0;
      var decls: map<Name, Decl> := map[];
      for i := 0 to |sorted|
        invariant BindFirst(sorted, i) == Binding(currentOffset, currentScope, decls, false)
      {
        var vr := sorted[i];
        if vr.identifier.scopeId != currentScope {
          currentScope, currentOffset := vr.identifier.scopeId, 0;
        }
        var offset := currentOffset;
        currentOffset := currentOffset + 1;
        var name := Name(offset % U16, vr.depth % 256, currentScope);
        if name in decls {
          PanicStays(sorted, i + 1, |sorted|);
          return None;
        }
        decls := decls[name := vr];
      }
      return Some(decls);
    }

    static method GlobalWidth(variables: seq<Decl>) returns (width: nat)
      ensures width == AtDepth0(variables)
    {
      width := 0;
      for i := 0 to |variables|
        invariant width == AtDepth0(variables[..i])
      {
        assert variables[..i + 1][..i] == variables[..i];
        if variables[i].depth == 0 {
          width := width + 1;
        }
      }
      assert variables[..|variables|] == variables;
    }
  }

  lemma NamedCountAppend(decls: seq<Decl>, d: Decl)
    ensures NamedCount(decls + [d]) == NamedCount(decls) + (if d.identifier.nr.Named? then 1 else 0)
  {
    assert (decls + [d])[..|decls|] == decls;
  }

  lemma {:induction false} PanicStays(sorted: seq<Decl>, i: nat, n: nat)
    requires i <= n <= |sorted| && BindFirst(sorted, i).panicked
    ensures BindFirst(sorted, n).panicked
    decreases n
  {
    if i < n { PanicStays(sorted, i, n - 1); }
  }

  lemma {:induction false} GlobalsLegal(s: Scopes, ops: seq<Op>)
    requires |s.scopes| == |s.stack| >= 1 && |s.variables| + |ops| < U16
    requires forall i :: 0 <= i < |ops| ==> ops[i].FindOrAddGlobal?
    ensures LegalRun(s, ops)
    decreases |ops|
  {
    if ops != [] {
      var s' := Step(s, ops[0]).0;
      assert |s'.variables| <= |s.variables| + 1 && |s'.scopes| == |s'.stack|;
      GlobalsLegal(s', ops[1..]);
    }
  }

}
