/**
 Lexical scoping for the MOO compiler: the scope stack, the declarations made while it
 changes, and what every legal run of scope operations keeps.

 Symbols compare case-insensitively in the compiler; a symbol here is its folded text.
 */
module VarScope {

  import opened Prelude

  type Symbol = string

  datatype DeclType = Global | Let | Assign | For | Unknown | RegisterType | Except | WhileLabel | ForkLabel

  datatype VarName = Named(sym: Symbol) | Register(num: nat)

  datatype Variable = Variable(id: nat, nr: VarName, scopeId: nat)

  datatype Decl = Decl(identifier: Variable, depth: nat, constant: bool, declType: DeclType, scopeId: nat)

  datatype BindMode = Reuse | New

  datatype Scopes = Scopes(
    variables: seq<Decl>,
    scopes: seq<seq<Variable>>,
    stack: seq<nat>,
    numRegisters: nat,
    scopeIdSeq: nat)

  // Ids, scope ids and register numbers are 16-bit in the compiler.
  const U16: nat := 0x1_0000

  const Empty: Scopes := Scopes([], [[]], [0], 0, 0)

  // ---------------------------------------------------------------- lookups

  // The first variable of one scope with the given name.
  function FirstNamed(scope: seq<Variable>, name: Symbol): Option<Variable> {
    if scope == [] then None
    else if scope[0].nr == Named(name) then Some(scope[0])
    else FirstNamed(scope[1..], name)
  }

  // What a name means: the innermost scope that declares it wins.
  function Resolve(scopes: seq<seq<Variable>>, name: Symbol): Option<Variable> {
    if scopes == [] then None
    else
      var inner := FirstNamed(scopes[|scopes| - 1], name);
      if inner.Some? then inner else Resolve(scopes[..|scopes| - 1], name)
  }

  lemma {:induction false} FirstNamedFinds(scope: seq<Variable>, name: Symbol)
    ensures FirstNamed(scope, name).Some? ==> FirstNamed(scope, name).value in scope && FirstNamed(scope, name).value.nr == Named(name)
    ensures FirstNamed(scope, name).None? <==> forall v :: v in scope ==> v.nr != Named(name)
  {
    if scope != [] && scope[0].nr != Named(name) {
      FirstNamedFinds(scope[1..], name);
      assert forall v :: v in scope <==> v == scope[0] || v in scope[1..];
    }
  }

  // ---------------------------------------------------------------- operations

  // The declarations stored in one scope, in declaration order.
  function OfScope(decls: seq<Decl>, scopeId: nat): (r: seq<Decl>)
    ensures |r| <= |decls|
  {
    if decls == [] then []
    else
      var last := |decls| - 1;
      var rest := OfScope(decls[..last], scopeId);
      if decls[last].scopeId == scopeId then rest + [decls[last]] else rest
  }

  function NamedCount(decls: seq<Decl>): nat {
    if decls == [] then 0
    else NamedCount(decls[..|decls| - 1]) + (if decls[|decls| - 1].identifier.nr.Named? then 1 else 0)
  }

  function Push(s: Scopes, visibleAt: nat, storage: nat, nr: VarName, constant: bool, declType: DeclType): (r: (Scopes, Variable))
    requires visibleAt < |s.scopes| && storage < |s.stack|
  {
    var scopeId := s.stack[storage];
    var vr := Variable(|s.variables| % U16, nr, scopeId);
    (s.(variables := s.variables + [Decl(vr, storage, constant, declType, scopeId)],
        scopes := s.scopes[visibleAt := s.scopes[visibleAt] + [vr]]),
     vr)
  }

  function NewUnboundVariable(s: Scopes, name: Symbol, depth: nat, constant: bool, mode: BindMode, declType: DeclType)
    : (r: (Scopes, Option<Variable>))
    requires depth < |s.scopes| == |s.stack|
  {
    var existing := FirstNamed(s.scopes[depth], name);
    if existing.Some? then
      (s, if mode == New then None else existing)
    else
      var (s', vr) := Push(s, depth, depth, Named(name), constant, declType);
      (s', Some(vr))
  }

  // A name only the current scope sees, stored in the scope around it.
  function NewInnerVariable(s: Scopes, name: Symbol, declType: DeclType): (r: (Scopes, Option<Variable>))
    requires |s.scopes| == |s.stack| >= 1
  {
    var inner := |s.scopes| - 1;
    if inner == 0 || FirstNamed(s.scopes[inner], name).Some? then (s, None)
    else
      var (s', vr) := Push(s, inner, inner - 1, Named(name), false, declType);
      (s', Some(vr))
  }

  datatype Op =
    | EnterScope
    | ExitScope
    | FindOrAddGlobal(name: Symbol, declType: DeclType)
    | FindOrAddScoped(name: Symbol, declType: DeclType)
    | DeclareRegister
    | DeclareOrUse(name: Symbol, declType: DeclType)
    | DeclareName(name: Symbol, declType: DeclType)
    | DeclareConst(name: Symbol, declType: DeclType)
    | DeclareForInner(name: Symbol, declType: DeclType)

  // The state after an operation and the variable it hands back, if any.
  function Step(s: Scopes, op: Op): (r: (Scopes, Option<Variable>))
    requires |s.scopes| == |s.stack| >= 1
  {
    var top := |s.scopes| - 1;
    match op
    case EnterScope =>
      var id := (s.scopeIdSeq + 1) % U16;
      (s.(scopeIdSeq := id, stack := s.stack + [id], scopes := s.scopes + [[]]), None)
    case ExitScope =>
      (s.(scopes := s.scopes[..top], stack := s.stack[..top]), None)
    case FindOrAddGlobal(name, declType) =>
      if Resolve(s.scopes, name).Some? then (s, Resolve(s.scopes, name))
      else NewUnboundVariable(s, name, 0, false, Reuse, declType)
    case FindOrAddScoped(name, declType) =>
      if Resolve(s.scopes, name).Some? then (s, Resolve(s.scopes, name))
      else NewUnboundVariable(s, name, top, false, Reuse, declType)
    case DeclareRegister =>
      var (s', vr) := Push(s, 0, 0, Register(s.numRegisters), false, RegisterType);
      (s'.(numRegisters := (s.numRegisters + 1) % U16), Some(vr))
    case DeclareOrUse(name, declType) => NewUnboundVariable(s, name, top, false, Reuse, declType)
    case DeclareName(name, declType) => NewUnboundVariable(s, name, top, false, New, declType)
    case DeclareConst(name, declType) => NewUnboundVariable(s, name, top, true, New, declType)
    case DeclareForInner(name, declType) =>
      NewInnerVariable(s, name, declType)
  }

  // How many variables leaving the current scope reports for it.
  function ExitWidth(s: Scopes): nat
    requires |s.stack| >= 1
  {
    NamedCount(OfScope(s.variables, s.stack[|s.stack| - 1]))
  }

  // ---------------------------------------------------------------- runs

  // Never pops the outermost scope, and stays below the 16-bit limits.
  predicate Legal(s: Scopes, op: Op) {
    && |s.scopes| == |s.stack| >= 1
    && match op
       case EnterScope => s.scopeIdSeq + 1 < U16
       case ExitScope => |s.scopes| >= 2
       case _ => |s.variables| < U16
  }

  predicate LegalRun(s: Scopes, ops: seq<Op>)
    decreases |ops|
  {
    ops == [] || (Legal(s, ops[0]) && LegalRun(Step(s, ops[0]).0, ops[1..]))
  }

  function Run(s: Scopes, ops: seq<Op>): (r: Scopes)
    requires LegalRun(s, ops)
    decreases |ops|
  {
    if ops == [] then s else Run(Step(s, ops[0]).0, ops[1..])
  }

  // ---------------------------------------------------------------- the invariant

  ghost predicate StackOk(stack: seq<nat>, scopeIdSeq: nat) {
    && |stack| >= 1
    && stack[0] == 0
    && scopeIdSeq < U16
    && (forall i, j :: 0 <= i < j < |stack| ==> stack[i] < stack[j])
    && (forall i :: 0 <= i < |stack| ==> stack[i] <= scopeIdSeq)
  }

  ghost predicate DeclOk(d: Decl, i: nat) {
    && d.identifier.id == i
    && d.identifier.scopeId == d.scopeId
    && (d.identifier.nr.Register? ==> d.scopeId == 0)
  }

  ghost predicate DeclsOk(decls: seq<Decl>, scopeIdSeq: nat) {
    && |decls| <= U16
    && (forall i :: 0 <= i < |decls| ==> DeclOk(decls[i], i) && decls[i].scopeId <= scopeIdSeq)
  }

  // A scope id belongs to one depth, and at one depth scope ids only grow.
  ghost predicate DepthOrder(decls: seq<Decl>) {
    && (forall i, j :: 0 <= i < j < |decls| && decls[i].scopeId == decls[j].scopeId ==> decls[i].depth == decls[j].depth)
    && (forall i, j :: 0 <= i < j < |decls| && decls[i].depth == decls[j].depth ==> decls[i].scopeId <= decls[j].scopeId)
  }

  // A live scope id sits at its stack position, and is the newest at that depth.
  ghost predicate DeclsFitStack(decls: seq<Decl>, stack: seq<nat>) {
    && (forall i, k :: 0 <= i < |decls| && 0 <= k < |stack| && decls[i].scopeId == stack[k] ==> decls[i].depth == k)
    && (forall i :: 0 <= i < |decls| && decls[i].depth < |stack| ==> decls[i].scopeId <= stack[decls[i].depth])
  }

  ghost predicate VisibleOk(scopes: seq<seq<Variable>>, decls: seq<Decl>) {
    forall k, v :: 0 <= k < |scopes| && v in scopes[k] ==> v.id < |decls| && decls[v.id].identifier == v
  }

  ghost predicate Inv(s: Scopes) {
    && |s.scopes| == |s.stack|
    && StackOk(s.stack, s.scopeIdSeq)
    && DeclsOk(s.variables, s.scopeIdSeq)
    && DepthOrder(s.variables)
    && DeclsFitStack(s.variables, s.stack)
    && VisibleOk(s.scopes, s.variables)
  }

  lemma PushKeepsVisible(scopes: seq<seq<Variable>>, decls: seq<Decl>, k: nat, d: Decl)
    requires VisibleOk(scopes, decls) && k < |scopes| && d.identifier.id == |decls|
    ensures VisibleOk(scopes[k := scopes[k] + [d.identifier]], decls + [d])
  {
  }

  lemma PushKeepsOrder(decls: seq<Decl>, stack: seq<nat>, d: Decl)
    requires DepthOrder(decls) && DeclsFitStack(decls, stack)
    requires d.depth < |stack| && d.scopeId == stack[d.depth]
    requires forall i, j :: 0 <= i < j < |stack| ==> stack[i] < stack[j]
    ensures DepthOrder(decls + [d]) && DeclsFitStack(decls + [d], stack)
  {
  }

  lemma PushKeepsInv(s: Scopes, visibleAt: nat, storage: nat, nr: VarName, constant: bool, declType: DeclType)
    requires Inv(s) && |s.variables| < U16
    requires visibleAt < |s.scopes| && storage < |s.stack|
    requires nr.Register? ==> storage == 0
    ensures Inv(Push(s, visibleAt, storage, nr, constant, declType).0)
  {
    hide DepthOrder;
    hide DeclsFitStack;
    hide VisibleOk;
    var s' := Push(s, visibleAt, storage, nr, constant, declType).0;
    var d := s'.variables[|s.variables|];
    PushKeepsVisible(s.scopes, s.variables, visibleAt, d);
    PushKeepsOrder(s.variables, s.stack, d);
  }

  lemma NewVariableKeepsInv(s: Scopes, name: Symbol, depth: nat, constant: bool, mode: BindMode, declType: DeclType)
    requires Inv(s) && |s.variables| < U16 && depth < |s.scopes|
    ensures Inv(NewUnboundVariable(s, name, depth, constant, mode, declType).0)
  {
    hide DepthOrder;
    hide DeclsFitStack;
    hide VisibleOk;
    hide DeclsOk;
    PushKeepsInv(s, depth, depth, Named(name), constant, declType);
  }

  lemma RegisterKeepsInv(s: Scopes)
    requires Inv(s) && |s.variables| < U16
    ensures Inv(Step(s, DeclareRegister).0)
  {
    hide DepthOrder;
    hide DeclsFitStack;
    hide VisibleOk;
    hide DeclsOk;
    PushKeepsInv(s, 0, 0, Register(s.numRegisters), false, RegisterType);
  }

  lemma ExitKeepsInv(s: Scopes)
    requires Inv(s) && |s.scopes| >= 2
    ensures Inv(Step(s, ExitScope).0)
  {
  }

  lemma InnerIsPush(s: Scopes, name: Symbol, declType: DeclType)
    requires |s.scopes| == |s.stack| >= 2
    ensures NewInnerVariable(s, name, declType).0
         == if FirstNamed(s.scopes[|s.scopes| - 1], name).Some? then s
            else Push(s, |s.scopes| - 1, |s.scopes| - 2, Named(name), false, declType).0
  {
  }

  lemma InnerKeepsInv(s: Scopes, name: Symbol, declType: DeclType)
    requires Inv(s) && |s.variables| < U16
    ensures Inv(NewInnerVariable(s, name, declType).0)
  {
    hide DepthOrder;
    hide DeclsFitStack;
    hide VisibleOk;
    hide DeclsOk;
    if |s.scopes| >= 2 {
      InnerIsPush(s, name, declType);
      if FirstNamed(s.scopes[|s.scopes| - 1], name).None? {
        PushKeepsInv(s, |s.scopes| - 1, |s.scopes| - 2, Named(name), false, declType);
      }
    }
  }

  lemma FindOrAddKeepsInv(s: Scopes, op: Op, name: Symbol, declType: DeclType)
    requires op == FindOrAddGlobal(name, declType) || op == FindOrAddScoped(name, declType)
    requires Inv(s) && |s.variables| < U16
    ensures Inv(Step(s, op).0)
  {
    hide DepthOrder;
    hide DeclsFitStack;
    hide VisibleOk;
    hide DeclsOk;
    var depth := if op.FindOrAddGlobal? then 0 else |s.scopes| - 1;
    var s' := Step(s, op).0;
    if Resolve(s.scopes, name).Some? {
      assert s' == s;
    } else {
      NewVariableKeepsInv(s, name, depth, false, Reuse, declType);
      assert s' == NewUnboundVariable(s, name, depth, false, Reuse, declType).0;
    }
  }

  lemma DeclareKeepsInv(s: Scopes, op: Op)
    requires op.DeclareOrUse? || op.DeclareName? || op.DeclareConst?
    requires Inv(s) && |s.variables| < U16
    ensures Inv(Step(s, op).0)
  {
    hide DepthOrder;
    hide DeclsFitStack;
    hide VisibleOk;
    hide DeclsOk;
    NewVariableKeepsInv(s, op.name, |s.scopes| - 1, op.DeclareConst?, if op.DeclareOrUse? then Reuse else New, op.declType);
  }

  // Every operation of the compiler's scope keeps the invariant.
  lemma StepKeepsInv(s: Scopes, op: Op)
    requires Inv(s) && Legal(s, op)
    ensures Inv(Step(s, op).0)
  {
    match op {
      case EnterScope => EnterKeepsInv(s);
      case ExitScope => ExitKeepsInv(s);
      case FindOrAddGlobal(name, declType) => FindOrAddKeepsInv(s, op, name, declType);
      case FindOrAddScoped(name, declType) => FindOrAddKeepsInv(s, op, name, declType);
      case DeclareRegister => RegisterKeepsInv(s);
      case DeclareOrUse(_, _) => DeclareKeepsInv(s, op);
      case DeclareName(_, _) => DeclareKeepsInv(s, op);
      case DeclareConst(_, _) => DeclareKeepsInv(s, op);
      case DeclareForInner(name, declType) => InnerKeepsInv(s, name, declType);
    }
  }

  lemma EnterFitsStack(s: Scopes)
    requires Inv(s)
    ensures DeclsFitStack(s.variables, s.stack + [s.scopeIdSeq + 1])
  {
    var id := s.scopeIdSeq + 1;
    forall i | 0 <= i < |s.variables|
      ensures s.variables[i].scopeId < id
    {
      assert DeclOk(s.variables[i], i);
    }
  }

  lemma EnterKeepsInv(s: Scopes)
    requires Inv(s) && Legal(s, EnterScope)
    ensures Inv(Step(s, EnterScope).0)
  {
    hide DeclsFitStack;
    hide DepthOrder;
    EnterFitsStack(s);
  }

  lemma {:induction false} RunKeepsInv(s: Scopes, ops: seq<Op>)
    requires Inv(s) && LegalRun(s, ops)
    ensures Inv(Run(s, ops))
    decreases |ops|
  {
    if ops != [] {
      StepKeepsInv(s, ops[0]);
      RunKeepsInv(Step(s, ops[0]).0, ops[1..]);
    }
  }

}
