/** The expression compiler of P4Objects::build_expression, the register
    allocator Expression::assign_dest_registers and the machine Expression::eval_.

    Three layers are related: the recursive meaning of an expression tree
    (`Denote`), the flat op vector it is compiled to (`CodeAt`), and a machine
    whose data stack holds references into constants, fields and a shared file of
    temporaries (`Exec`). The arithmetic of `Data` is a parameter of the
    environment: every theorem holds for all interpretations of it. */
module Expressions {
  import opened Options
  import opened Sequences

  // ----- operators ----------------------------------------------------------

  datatype ArithOp = Add | Sub | Mod | Div | Mul | ShiftLeft | ShiftRight
                   | BitAnd | BitOr | BitXor | TwoCompMod
  datatype CompareOp = Eq | Neq | Gt | Lt | Get | Let

  datatype Binary = Arith(arith: ArithOp) | Compare(compare: CompareOp) | And | Or
  datatype Unary = Not | BitNeg | ValidHeader | DataToBool | BoolToData | LoadRegisterGen(array_: int)
  datatype Load = LoadField(header: int, offset: int) | LoadHeader(header: int) | LoadBool(flag: bool)
                | LoadLocal(offset: int) | LoadRegisterRef(array_: int, idx: int)

  datatype Ty = DataTy | BoolTy | HeaderTy
  datatype Value = DataV(data: int) | BoolV(flag: bool) | HeaderV(header: int)

  function TypeOfValue(v: Value): Ty {
    match v case DataV(_) => DataTy case BoolV(_) => BoolTy case HeaderV(_) => HeaderTy
  }

  function BinaryIn(op: Binary): Ty { if op.And? || op.Or? then BoolTy else DataTy }
  function BinaryOut(op: Binary): Ty { if op.Arith? then DataTy else BoolTy }
  function UnaryIn(op: Unary): Ty {
    if op.Not? || op.BoolToData? then BoolTy else if op.ValidHeader? then HeaderTy else DataTy
  }
  function UnaryOut(op: Unary): Ty {
    if op.BitNeg? || op.BoolToData? || op.LoadRegisterGen? then DataTy else BoolTy
  }
  function LoadOut(l: Load): Ty {
    if l.LoadHeader? then HeaderTy else if l.LoadBool? then BoolTy else DataTy
  }

  /** What an evaluation reads: fields and header validity of the PHV, action
      data, register arrays, and the interpretation of the `Data` operations. */
  datatype Env = Env(
    field: (int, int) -> int,
    local: int -> int,
    register: (int, int) -> int,
    valid: int -> bool,
    arith: (ArithOp, int, int) -> int,
    bitNeg: int -> int)

  // Narrowing of a big number used as a register index.
  function ToUint(n: int): int { n % 0x1_0000_0000 }
  function ToSize(n: int): int { n % 0x1_0000_0000_0000_0000 }

  function Compares(op: CompareOp, l: int, r: int): bool {
    match op
    case Eq => l == r
    case Neq => l != r
    case Gt => l > r
    case Lt => l < r
    case Get => l >= r
    case Let => l <= r
  }

  function ApplyBinary(op: Binary, env: Env, l: Value, r: Value): (v: Value)
    requires TypeOfValue(l) == TypeOfValue(r) == BinaryIn(op)
    ensures TypeOfValue(v) == BinaryOut(op)
  {
    match op
    case Arith(a) => DataV(env.arith(a, l.data, r.data))
    case Compare(c) => BoolV(Compares(c, l.data, r.data))
    case And => BoolV(l.flag && r.flag)
    case Or => BoolV(l.flag || r.flag)
  }

  function ApplyUnary(op: Unary, env: Env, v: Value): (r: Value)
    requires TypeOfValue(v) == UnaryIn(op)
    ensures TypeOfValue(r) == UnaryOut(op)
  {
    match op
    case Not => BoolV(!v.flag)
    case BitNeg => DataV(env.bitNeg(v.data))
    case ValidHeader => BoolV(env.valid(v.header))
    case DataToBool => BoolV(v.data != 0)
    case BoolToData => DataV(if v.flag then 1 else 0)
    case LoadRegisterGen(a) => DataV(env.register(a, ToSize(v.data)))
  }

  function Loaded(l: Load, env: Env): (v: Value)
    ensures TypeOfValue(v) == LoadOut(l)
  {
    match l
    case LoadField(h, f) => DataV(env.field(h, f))
    case LoadHeader(h) => HeaderV(h)
    case LoadBool(b) => BoolV(b)
    case LoadLocal(i) => DataV(env.local(i))
    case LoadRegisterRef(a, i) => DataV(env.register(a, i))
  }

  // ----- trees --------------------------------------------------------------

  /** The JSON expression language. `JNull` is an absent operand. */
  datatype Json =
    | JNull
    | JTernary(cond: Json, left: Json, right: Json)
    | JBinary(bop: Binary, left: Json, right: Json)
    | JUnary(uop: Unary, left: Json, right: Json)
    | JLoad(load: Load)
    | JHex(number: int)
    | JRegister(array_: int, index: Json)

  datatype Node =
    | Leaf(load: Load)
    | Constant(number: int)
    | UnaryNode(uop: Unary, arg: Node)
    | BinaryNode(bop: Binary, left: Node, right: Node)
    | TernaryNode(cond: Node, left: Node, right: Node)

  /** Unary plus and minus are written with an absent left operand. */
  predicate UnarySign(op: Binary, left: Json) {
    left.JNull? && (op == Arith(Add) || op == Arith(Sub))
  }

  /** The tree meant by a JSON expression; None if an operand is missing, or
      present where none is expected. */
  function Tree(j: Json): Option<Node> {
    match j
    case JNull => None
    case JTernary(c, l, r) =>
      if Tree(c).Some? && Tree(l).Some? && Tree(r).Some?
      then Some(TernaryNode(Tree(c).value, Tree(l).value, Tree(r).value)) else None
    case JBinary(op, l, r) =>
      var left := if UnarySign(op, l) then Some(Constant(0)) else Tree(l);
      if left.Some? && Tree(r).Some? then Some(BinaryNode(op, left.value, Tree(r).value)) else None
    case JUnary(op, l, r) =>
      if l.JNull? && Tree(r).Some? then Some(UnaryNode(op, Tree(r).value)) else None
    case JLoad(l) => Some(Leaf(l))
    case JHex(v) => Some(Constant(v))
    case JRegister(a, i) =>
      if i.JHex? then Some(Leaf(LoadRegisterRef(a, ToUint(i.number))))
      else if Tree(i).Some? then Some(UnaryNode(LoadRegisterGen(a), Tree(i).value))
      else None
  }

  predicate Typed(n: Node) {
    match n
    case Leaf(_) => true
    case Constant(_) => true
    case UnaryNode(op, e) => Typed(e) && TypeOf(e) == UnaryIn(op)
    case BinaryNode(op, l, r) => Typed(l) && Typed(r) && TypeOf(l) == TypeOf(r) == BinaryIn(op)
    case TernaryNode(c, l, r) => Typed(c) && Typed(l) && Typed(r) && TypeOf(c) == BoolTy && TypeOf(l) == TypeOf(r)
  }

  function TypeOf(n: Node): Ty {
    match n
    case Leaf(l) => LoadOut(l)
    case Constant(_) => DataTy
    case UnaryNode(op, _) => UnaryOut(op)
    case BinaryNode(op, _, _) => BinaryOut(op)
    case TernaryNode(_, l, _) => TypeOf(l)
  }

  /** The recursive meaning of a well-typed tree. */
  function Denote(n: Node, env: Env): (v: Value)
    requires Typed(n)
    ensures TypeOfValue(v) == TypeOf(n)
  {
    match n
    case Leaf(l) => Loaded(l, env)
    case Constant(v) => DataV(v)
    case UnaryNode(op, e) => ApplyUnary(op, env, Denote(e, env))
    case BinaryNode(op, l, r) => ApplyBinary(op, env, Denote(l, env), Denote(r, env))
    case TernaryNode(c, l, r) => if Denote(c, env).flag then Denote(l, env) else Denote(r, env)
  }

  /** `v` is what a tree is worth, given what its operands are worth: every kind of node
      and every operator, written out. */
  ghost predicate Means(n: Node, env: Env, v: Value)
    requires Typed(n)
  {
    match n
    case Leaf(LoadField(h, f)) => v == DataV(env.field(h, f))
    case Leaf(LoadHeader(h)) => v == HeaderV(h)
    case Leaf(LoadBool(b)) => v == BoolV(b)
    case Leaf(LoadLocal(i)) => v == DataV(env.local(i))
    case Leaf(LoadRegisterRef(a, i)) => v == DataV(env.register(a, i))
    case Constant(c) => v == DataV(c)
    case UnaryNode(Not, e) => v == BoolV(Denote(e, env) == BoolV(false))
    case UnaryNode(BitNeg, e) => v == DataV(env.bitNeg(Denote(e, env).data))
    case UnaryNode(ValidHeader, e) => v == BoolV(env.valid(Denote(e, env).header))
    case UnaryNode(DataToBool, e) => v == BoolV(Denote(e, env) != DataV(0))
    case UnaryNode(BoolToData, e) => v == if Denote(e, env) == BoolV(true) then DataV(1) else DataV(0)
    case UnaryNode(LoadRegisterGen(a), e) =>
      v == DataV(env.register(a, Denote(e, env).data % 0x1_0000_0000_0000_0000))
    case BinaryNode(Arith(op), l, r) => v == DataV(env.arith(op, Denote(l, env).data, Denote(r, env).data))
    case BinaryNode(Compare(Eq), l, r) => v == BoolV(Denote(l, env).data == Denote(r, env).data)
    case BinaryNode(Compare(Neq), l, r) => v == BoolV(Denote(l, env).data != Denote(r, env).data)
    case BinaryNode(Compare(Gt), l, r) => v == BoolV(Denote(l, env).data > Denote(r, env).data)
    case BinaryNode(Compare(Lt), l, r) => v == BoolV(Denote(l, env).data < Denote(r, env).data)
    case BinaryNode(Compare(Get), l, r) => v == BoolV(Denote(l, env).data >= Denote(r, env).data)
    case BinaryNode(Compare(Let), l, r) => v == BoolV(Denote(l, env).data <= Denote(r, env).data)
    case BinaryNode(And, l, r) => v == BoolV(Denote(l, env).flag && Denote(r, env).flag)
    case BinaryNode(Or, l, r) => v == BoolV(Denote(l, env).flag || Denote(r, env).flag)
    case TernaryNode(c, l, r) => v == if Denote(c, env) == BoolV(true) then Denote(l, env) else Denote(r, env)
  }

  /** Denote is the one value that a tree means. */
  lemma {:induction false} DenoteMeans(n: Node, env: Env, v: Value)
    requires Typed(n)
    ensures Means(n, env, v) <==> v == Denote(n, env)
  {}

  ghost predicate Holds(op: CompareOp, l: Node, r: Node, env: Env)
    requires Typed(l) && Typed(r) && TypeOf(l) == TypeOf(r) == DataTy
  {
    Denote(BinaryNode(Compare(op), l, r), env) == BoolV(true)
  }

  /** The comparisons order the values: exactly one of <, == and > holds, the others are
      their negations, and turning the operands round turns < into >. */
  lemma {:induction false} ComparisonLaws(l: Node, r: Node, env: Env)
    requires Typed(l) && Typed(r) && TypeOf(l) == TypeOf(r) == DataTy
    ensures Holds(Lt, l, r, env) || Holds(Eq, l, r, env) || Holds(Gt, l, r, env)
    ensures !(Holds(Lt, l, r, env) && Holds(Eq, l, r, env)) && !(Holds(Lt, l, r, env) && Holds(Gt, l, r, env))
    ensures !(Holds(Eq, l, r, env) && Holds(Gt, l, r, env)) && (Holds(Lt, l, r, env) <==> Holds(Gt, r, l, env))
    ensures Holds(Let, l, r, env) <==> !Holds(Gt, l, r, env)
    ensures Holds(Get, l, r, env) <==> !Holds(Lt, l, r, env)
    ensures Holds(Neq, l, r, env) <==> !Holds(Eq, l, r, env)
  {}

  /** An expression is complete if no operand is missing, a sign needing none on its left,
      and none stands where a unary operator or a register has no place for it. */
  ghost predicate Complete(j: Json) {
    match j
    case JNull => false
    case JTernary(c, l, r) => Complete(c) && Complete(l) && Complete(r)
    case JBinary(op, JNull, r) => op in {Arith(Add), Arith(Sub)} && Complete(r)
    case JBinary(_, l, r) => Complete(l) && Complete(r)
    case JUnary(_, l, r) => l == JNull && Complete(r)
    case JLoad(_) => true
    case JHex(_) => true
    case JRegister(_, i) => Complete(i)
  }

  /** Exactly the complete expressions have a tree. */
  lemma {:induction false} TreeIff(j: Json)
    ensures Tree(j).Some? <==> Complete(j)
  {
    match j
    case JNull =>
    case JTernary(c, l, r) => TreeIff(c); TreeIff(l); TreeIff(r);
    case JBinary(_, l, r) => TreeIff(l); TreeIff(r);
    case JUnary(_, l, r) => TreeIff(r);
    case JLoad(_) =>
    case JHex(_) =>
    case JRegister(_, i) => TreeIff(i);
  }

  /** What JSON writes shorter: a sign has 0 on its left, and a constant register index is
      narrowed to 32 bits. */
  lemma {:induction false} JsonMeans(j: Json, env: Env)
    requires Tree(j).Some? && Typed(Tree(j).value)
    ensures j.JHex? ==> Denote(Tree(j).value, env) == DataV(j.number)
    ensures j.JBinary? && j.left.JNull? ==>
              && Tree(j.right).Some? && Typed(Tree(j.right).value) && (j.bop == Arith(Add) || j.bop == Arith(Sub))
              && Denote(Tree(j).value, env) == DataV(env.arith(j.bop.arith, 0, Denote(Tree(j.right).value, env).data))
    ensures j.JRegister? && j.index.JHex? ==>
              Denote(Tree(j).value, env) == DataV(env.register(j.array_, j.index.number % 0x1_0000_0000))
  {}

  // ----- compiled code ------------------------------------------------------

  datatype Op =
    | LoadOp(load: Load)
    | LoadConst(constOffset: nat)
    | UnaryOp(uop: Unary, dest: nat)
    | BinaryOp(bop: Binary, dest: nat)
    | Ternary
    | Skip(num: nat)

  /** The constants a tree contributes, in order of emission. */
  function Consts(n: Node): seq<int> {
    match n
    case Leaf(_) => []
    case Constant(v) => [v]
    case UnaryNode(_, e) => Consts(e)
    case BinaryNode(_, l, r) => Consts(l) + Consts(r)
    case TernaryNode(c, l, r) => Consts(c) + Consts(l) + Consts(r)
  }

  /** How many ops a tree compiles to. */
  function Size(n: Node): nat {
    match n
    case Leaf(_) => 1
    case Constant(_) => 1
    case UnaryNode(_, e) => Size(e) + 1
    case BinaryNode(_, l, r) => Size(l) + Size(r) + 1
    case TernaryNode(c, l, r) => Size(c) + 2 + Size(l) + 1 + Size(r)
  }

  /** The ops of tree `n`, with constants from offset `k` on, stand at `pc`,
      whatever their destination registers. */
  predicate CodeAt(prog: seq<Op>, pc: nat, n: Node, k: nat)
    decreases n
  {
    && pc + Size(n) <= |prog|
    && match n
       case Leaf(l) => prog[pc] == LoadOp(l)
       case Constant(_) => prog[pc] == LoadConst(k)
       case UnaryNode(op, e) =>
         CodeAt(prog, pc, e, k) && prog[pc + Size(e)].UnaryOp? && prog[pc + Size(e)].uop == op
       case BinaryNode(op, l, r) =>
         var po := pc + Size(l) + Size(r);
         && CodeAt(prog, pc, l, k) && CodeAt(prog, pc + Size(l), r, k + |Consts(l)|)
         && prog[po].BinaryOp? && prog[po].bop == op
       case TernaryNode(c, l, r) =>
         var pl := pc + Size(c) + 2;
         var pr := pl + Size(l) + 1;
         && CodeAt(prog, pc, c, k)
         && prog[pl - 2] == Ternary
         && prog[pl - 1] == Skip(Size(l) + 1)
         && CodeAt(prog, pl, l, k + |Consts(c)|)
         && prog[pr - 1] == Skip(Size(r))
         && CodeAt(prog, pr, r, k + |Consts(c)| + |Consts(l)|)
  }

  // The layout of each kind of node, one level deep.
  ghost predicate UnaryParts(prog: seq<Op>, pc: nat, n: Node, k: nat, po: nat)
    requires n.UnaryNode?
  {
    && po < |prog| && CodeAt(prog, pc, n.arg, k) && prog[po].UnaryOp? && prog[po].uop == n.uop
  }

  lemma {:induction false} UnaryLayout(prog: seq<Op>, pc: nat, n: Node, k: nat) returns (po: nat)
    requires n.UnaryNode?
    ensures CodeAt(prog, pc, n, k) <==> UnaryParts(prog, pc, n, k, po)
    ensures po == pc + Size(n.arg) && Size(n) == po + 1 - pc
  {
    po := pc + Size(n.arg);
  }

  ghost predicate BinaryParts(prog: seq<Op>, pc: nat, n: Node, k: nat, pr: nat, po: nat)
    requires n.BinaryNode?
  {
    && pr == pc + Size(n.left) && po == pr + Size(n.right)
    && Size(n) == po + 1 - pc && po < |prog|
    && CodeAt(prog, pc, n.left, k) && CodeAt(prog, pr, n.right, k + |Consts(n.left)|)
    && prog[po].BinaryOp? && prog[po].bop == n.bop
  }

  lemma {:induction false} BinaryLayout(prog: seq<Op>, pc: nat, n: Node, k: nat) returns (pr: nat, po: nat)
    requires n.BinaryNode?
    ensures CodeAt(prog, pc, n, k) <==> BinaryParts(prog, pc, n, k, pr, po)
    ensures pr == pc + Size(n.left) && po == pr + Size(n.right) && Size(n) == po + 1 - pc
  {
    pr := pc + Size(n.left);
    po := pr + Size(n.right);
  }

  ghost predicate TernaryParts(prog: seq<Op>, pc: nat, n: Node, k: nat, pt: nat, ps: nat, pe: nat)
    requires n.TernaryNode?
  {
    && pt == pc + Size(n.cond) && ps == pt + 2 + Size(n.left) && pe == ps + 1 + Size(n.right)
    && Size(n) == pe - pc && pe <= |prog|
    && CodeAt(prog, pc, n.cond, k)
    && prog[pt] == Ternary && prog[pt + 1] == Skip(ps - pt - 1)
    && CodeAt(prog, pt + 2, n.left, k + |Consts(n.cond)|)
    && prog[ps] == Skip(pe - ps - 1)
    && CodeAt(prog, ps + 1, n.right, k + |Consts(n.cond)| + |Consts(n.left)|)
  }

  lemma {:induction false} TernaryLayout(prog: seq<Op>, pc: nat, n: Node, k: nat) returns (pt: nat, ps: nat, pe: nat)
    requires n.TernaryNode?
    ensures CodeAt(prog, pc, n, k) <==> TernaryParts(prog, pc, n, k, pt, ps, pe)
    ensures pt == pc + Size(n.cond) && ps == pt + 2 + Size(n.left) && pe == ps + 1 + Size(n.right)
    ensures Size(n) == pe - pc
  {
    pt := pc + Size(n.cond);
    ps := pt + 2 + Size(n.left);
    pe := ps + 1 + Size(n.right);
  }

  /** Constant relocation done by append_expression. */
  function RelocateOp(op: Op, delta: nat): Op {
    if op.LoadConst? then LoadConst(op.constOffset + delta) else op
  }

  function SetDest(op: Op, d: nat): Op {
    if op.UnaryOp? || op.BinaryOp? then op.(dest := d) else op
  }

  /** `prog'` holds, `shift` positions further, ops `lo` up to `hi` of `prog`
      relocated by `delta`, up to destination registers. */
  ghost predicate Moved(prog: seq<Op>, lo: nat, hi: nat, prog': seq<Op>, shift: nat, delta: nat) {
    && hi <= |prog| && hi + shift <= |prog'|
    && forall i :: lo <= i < hi ==> MovedOp(prog[i], prog'[i + shift], delta)
  }

  predicate MovedOp(op: Op, op': Op, delta: nat) {
    SetDest(op', 0) == SetDest(RelocateOp(op, delta), 0)
  }

  // What the four pushes of a ternary leave in the ops.
  lemma {:induction false} TernaryAppended(
    start: seq<Op>, first: seq<Op>, all: seq<Op>, left: seq<Op>, right: seq<Op>, l: Node, r: Node, c: nat)
    requires CodeAt(left, 0, l, 0) && |left| == Size(l) && CodeAt(right, 0, r, 0) && |right| == Size(r)
    requires |first| == |start| + 2 + |left| && first <= all && |all| == |first| + 1 + |right|
    requires first[|start|] == Ternary && first[|start| + 1] == Skip(|left| + 1) && all[|first|] == Skip(|right|)
    requires forall i :: 0 <= i < |left| ==> first[i + (|start| + 2)] == RelocateOp(left[i], c)
    requires forall i :: 0 <= i < |right| ==> all[i + (|first| + 1)] == RelocateOp(right[i], c + |Consts(l)|)
    ensures
      var p := |start|;
      && |all| == p + 2 + Size(l) + 1 + Size(r)
      && all[p] == Ternary && all[p + 1] == Skip(Size(l) + 1)
      && CodeAt(all, p + 2, l, c)
      && all[p + 2 + Size(l)] == Skip(Size(r))
      && CodeAt(all, p + 3 + Size(l), r, c + |Consts(l)|)
  {
    hide CodeAt, Size, Consts;
    Appended(left, first, |start| + 2, c);
    Appended(right, all, |first| + 1, c + |Consts(l)|);
    hide Moved, RelocateOp;
    CodeMoves(left, 0, l, 0, first, |start| + 2, c);
    CodeKept(first, |start| + 2, l, c, all);
    CodeMoves(right, 0, r, 0, all, |first| + 1, c + |Consts(l)|);
  }

  lemma {:induction false} Appended(added: seq<Op>, all: seq<Op>, at: nat, delta: nat)
    requires at + |added| <= |all|
    requires forall i :: 0 <= i < |added| ==> all[i + at] == RelocateOp(added[i], delta)
    ensures Moved(added, 0, |added|, all, at, delta)
  {}

  /** Moved code is still the code of the same tree: it reads the same constants
      and no jump inside it changes. */
  lemma {:induction false} CodeMoves(prog: seq<Op>, pc: nat, n: Node, k: nat, prog': seq<Op>, shift: nat, delta: nat)
    requires CodeAt(prog, pc, n, k)
    requires Moved(prog, pc, pc + Size(n), prog', shift, delta)
    ensures CodeAt(prog', pc + shift, n, k + delta)
    decreases n, 1
  {
    match n
    case Leaf(_) => assert MovedOp(prog[pc], prog'[pc + shift], delta);
    case Constant(_) => assert MovedOp(prog[pc], prog'[pc + shift], delta);
    case UnaryNode(_, e) => UnaryMoves(prog, pc, n, k, prog', shift, delta);
    case BinaryNode(_, l, r) => BinaryMoves(prog, pc, n, k, prog', shift, delta);
    case TernaryNode(c, l, r) => TernaryMoves(prog, pc, n, k, prog', shift, delta);
  }

  lemma {:induction false} UnaryMoves(prog: seq<Op>, pc: nat, n: Node, k: nat, prog': seq<Op>, shift: nat, delta: nat)
    requires n.UnaryNode? && CodeAt(prog, pc, n, k)
    requires Moved(prog, pc, pc + Size(n), prog', shift, delta)
    ensures CodeAt(prog', pc + shift, n, k + delta)
    decreases n, 0
  {
    hide CodeAt, Size, Consts;
    var po := UnaryLayout(prog, pc, n, k);
    CodeMoves(prog, pc, n.arg, k, prog', shift, delta);
    assert MovedOp(prog[po], prog'[po + shift], delta);
    var _ := UnaryLayout(prog', pc + shift, n, k + delta);
  }

  lemma {:induction false} BinaryMoves(prog: seq<Op>, pc: nat, n: Node, k: nat, prog': seq<Op>, shift: nat, delta: nat)
    requires n.BinaryNode? && CodeAt(prog, pc, n, k)
    requires Moved(prog, pc, pc + Size(n), prog', shift, delta)
    ensures CodeAt(prog', pc + shift, n, k + delta)
    decreases n, 0
  {
    hide CodeAt, Size, Consts;
    var pr, po := BinaryLayout(prog, pc, n, k);
    CodeMoves(prog, pc, n.left, k, prog', shift, delta);
    CodeMoves(prog, pr, n.right, k + |Consts(n.left)|, prog', shift, delta);
    assert MovedOp(prog[po], prog'[po + shift], delta);
    var _, _ := BinaryLayout(prog', pc + shift, n, k + delta);
  }

  lemma {:induction false} TernaryMoves(prog: seq<Op>, pc: nat, n: Node, k: nat, prog': seq<Op>, shift: nat, delta: nat)
    requires n.TernaryNode? && CodeAt(prog, pc, n, k)
    requires Moved(prog, pc, pc + Size(n), prog', shift, delta)
    ensures CodeAt(prog', pc + shift, n, k + delta)
    decreases n, 0
  {
    hide CodeAt, Size, Consts;
    var pt, ps, pe := TernaryLayout(prog, pc, n, k);
    CodeMoves(prog, pc, n.cond, k, prog', shift, delta);
    CodeMoves(prog, pt + 2, n.left, k + |Consts(n.cond)|, prog', shift, delta);
    CodeMoves(prog, ps + 1, n.right, k + |Consts(n.cond)| + |Consts(n.left)|, prog', shift, delta);
    assert MovedOp(prog[pt], prog'[pt + shift], delta);
    assert MovedOp(prog[pt + 1], prog'[pt + 1 + shift], delta);
    assert MovedOp(prog[ps], prog'[ps + shift], delta);
    var _, _, _ := TernaryLayout(prog', pc + shift, n, k + delta);
  }

  // ----- register allocation ------------------------------------------------

  predicate HasDest(op: Op) {
    || (op.UnaryOp? && (op.uop.BitNeg? || op.uop.BoolToData?))
    || (op.BinaryOp? && op.bop.Arith?)
  }

  // How many entries an op takes from and puts on the allocator's stack.
  function Pops(op: Op): nat {
    if op.UnaryOp? && UnaryIn(op.uop).DataTy? then 1
    else if op.BinaryOp? && BinaryIn(op.bop).DataTy? then 2
    else 0
  }

  function Pushes(op: Op): seq<nat> {
    match op
    case LoadOp(l) => if LoadOut(l).DataTy? then [0] else []
    case LoadConst(_) => [0]
    case UnaryOp(u, _) => if UnaryOut(u).DataTy? then [if HasDest(op) then 1 else 0] else []
    case BinaryOp(b, _) => if BinaryOut(b).DataTy? then [1] else []
    case _ => []
  }

  // What is left of the allocator's stack when the operands of `op` are popped.
  function Below(a: seq<nat>, op: Op): seq<nat> {
    if Pops(op) <= |a| then a[..|a| - Pops(op)] else []
  }

  /** The allocator's stack before op `pc`. */
  function StackAt(prog: seq<Op>, pc: nat): seq<nat>
    requires pc <= |prog|
  {
    if pc == 0 then [] else Below(StackAt(prog, pc - 1), prog[pc - 1]) + Pushes(prog[pc - 1])
  }

  /** Neither pop of the linear pass underflows at op `pc`. */
  predicate PopsFit(prog: seq<Op>, pc: nat) {
    pc < |prog| && Pops(prog[pc]) <= |StackAt(prog, pc)|
  }

  /** The abstract stack only grows over the ops of a well-typed tree: it keeps
      what was below, and a data expression leaves at least one entry more. A
      ternary leaves the entries of both branches. */
  ghost predicate Grown(a: seq<nat>, b: seq<nat>, t: Ty) {
    a <= b && (t.DataTy? ==> |a| < |b|)
  }

  /** The linear pass never underflows on compiled code. */
  lemma {:induction false} AllocatorFits(prog: seq<Op>, pc: nat, n: Node, k: nat)
    requires Typed(n) && CodeAt(prog, pc, n, k)
    ensures Grown(StackAt(prog, pc), StackAt(prog, pc + Size(n)), TypeOf(n))
    ensures forall i :: pc <= i < pc + Size(n) ==> PopsFit(prog, i)
    decreases n, 1
  {
    hide StackAt;
    match n
    case Leaf(_) => StackStep(prog, pc);
    case Constant(_) => StackStep(prog, pc);
    case UnaryNode(_, _) => UnaryFits(prog, pc, n, k);
    case BinaryNode(_, _, _) => BinaryFits(prog, pc, n, k);
    case TernaryNode(_, _, _) => TernaryFits(prog, pc, n, k);
  }

  lemma {:induction false} UnaryFits(prog: seq<Op>, pc: nat, n: Node, k: nat)
    requires n.UnaryNode? && Typed(n) && CodeAt(prog, pc, n, k)
    ensures Grown(StackAt(prog, pc), StackAt(prog, pc + Size(n)), TypeOf(n))
    ensures forall i :: pc <= i < pc + Size(n) ==> PopsFit(prog, i)
    decreases n, 0
  {
    hide StackAt, CodeAt, Size, Consts;
    var po := UnaryLayout(prog, pc, n, k);
    AllocatorFits(prog, pc, n.arg, k);
    StackStep(prog, po);
  }

  lemma {:induction false} BinaryFits(prog: seq<Op>, pc: nat, n: Node, k: nat)
    requires n.BinaryNode? && Typed(n) && CodeAt(prog, pc, n, k)
    ensures Grown(StackAt(prog, pc), StackAt(prog, pc + Size(n)), TypeOf(n))
    ensures forall i :: pc <= i < pc + Size(n) ==> PopsFit(prog, i)
    decreases n, 0
  {
    hide StackAt, CodeAt, Size, Consts;
    var pr, po := BinaryLayout(prog, pc, n, k);
    AllocatorFits(prog, pc, n.left, k);
    AllocatorFits(prog, pr, n.right, k + |Consts(n.left)|);
    StackStep(prog, po);
  }

  lemma {:induction false} TernaryFits(prog: seq<Op>, pc: nat, n: Node, k: nat)
    requires n.TernaryNode? && Typed(n) && CodeAt(prog, pc, n, k)
    ensures Grown(StackAt(prog, pc), StackAt(prog, pc + Size(n)), TypeOf(n))
    ensures forall i :: pc <= i < pc + Size(n) ==> PopsFit(prog, i)
    decreases n, 0
  {
    hide StackAt, CodeAt, Size, Consts, PopsFit;
    var pt, ps, pe := TernaryLayout(prog, pc, n, k);
    AllocatorFits(prog, pc, n.cond, k);
    JumpStep(prog, pt);
    JumpStep(prog, pt + 1);
    AllocatorFits(prog, pt + 2, n.left, k + |Consts(n.cond)|);
    JumpStep(prog, ps);
    AllocatorFits(prog, ps + 1, n.right, k + |Consts(n.cond)| + |Consts(n.left)|);
  }

  lemma {:induction false} JumpStep(prog: seq<Op>, pc: nat)
    requires pc < |prog| && (prog[pc].Ternary? || prog[pc].Skip?)
    ensures StackAt(prog, pc + 1) == StackAt(prog, pc) && PopsFit(prog, pc)
  {
    hide StackAt;
    StackStep(prog, pc);
  }

  lemma {:induction false} StackStep(prog: seq<Op>, pc: nat)
    requires pc < |prog|
    ensures StackAt(prog, pc + 1) == Below(StackAt(prog, pc), prog[pc]) + Pushes(prog[pc])
    ensures prog[pc].Ternary? || prog[pc].Skip? ==> StackAt(prog, pc + 1) == StackAt(prog, pc)
  {
    var a := StackAt(prog, pc);
    assert a[..|a|] + [] == a;
  }

  /** What assign_dest_registers establishes: each destination is the number of
      registers in use below the operands, and `count` bounds them all. */
  ghost predicate Allocated(prog: seq<Op>, count: nat) {
    && (forall i :: 0 <= i < |prog| ==> HasDest(prog[i]) ==> DestAt(prog, i))
    && (forall i :: 0 <= i <= |prog| ==> Sum(StackAt(prog, i)) <= count)
  }

  ghost predicate DestAt(prog: seq<Op>, i: nat)
    requires i < |prog| && HasDest(prog[i])
  {
    prog[i].dest == Sum(Below(StackAt(prog, i), prog[i]))
  }

  /** Programs whose ops pop and push alike up to `pc` have the same stack. */
  lemma {:induction false} SameStacks(p: seq<Op>, q: seq<Op>, pc: nat)
    requires pc <= |p| && pc <= |q|
    requires forall i :: 0 <= i < pc ==> Pops(p[i]) == Pops(q[i]) && Pushes(p[i]) == Pushes(q[i])
    ensures StackAt(p, pc) == StackAt(q, pc)
  {
    hide Pops, Pushes;
    if pc > 0 { SameStacks(p, q, pc - 1); }
  }

  // ----- the machine --------------------------------------------------------

  /** The pointers the data stack holds. */
  datatype Ref = FieldRef(header: int, offset: int) | ConstRef(k: nat) | LocalRef(i: int)
               | RegisterRef(array_: int, idx: int) | TempRef(reg: nat)

  datatype State = State(data: seq<Ref>, bools: seq<bool>, headers: seq<int>, temps: seq<int>)

  function Deref(env: Env, consts: seq<int>, temps: seq<int>, r: Ref): int {
    match r
    case FieldRef(h, f) => env.field(h, f)
    case ConstRef(k) => if k < |consts| then consts[k] else 0
    case LocalRef(i) => env.local(i)
    case RegisterRef(a, i) => env.register(a, i)
    case TempRef(i) => if i < |temps| then temps[i] else 0
  }

  function Values(env: Env, consts: seq<int>, st: State): (vs: seq<int>)
    ensures |vs| == |st.data|
    ensures forall i :: 0 <= i < |vs| ==> vs[i] == Deref(env, consts, st.temps, st.data[i])
  {
    seq(|st.data|, i requires 0 <= i < |st.data| => Deref(env, consts, st.temps, st.data[i]))
  }

  function Height(st: State, t: Ty): nat {
    match t case DataTy => |st.data| case BoolTy => |st.bools| case HeaderTy => |st.headers|
  }

  function Top(env: Env, consts: seq<int>, st: State, t: Ty): (v: Value)
    requires Height(st, t) > 0
    ensures TypeOfValue(v) == t
  {
    match t
    case DataTy => DataV(Deref(env, consts, st.temps, st.data[|st.data| - 1]))
    case BoolTy => BoolV(st.bools[|st.bools| - 1])
    case HeaderTy => HeaderV(st.headers[|st.headers| - 1])
  }

  function Pop(st: State, t: Ty): State
    requires Height(st, t) > 0
  {
    match t
    case DataTy => st.(data := st.data[..|st.data| - 1])
    case BoolTy => st.(bools := st.bools[..|st.bools| - 1])
    case HeaderTy => st.(headers := st.headers[..|st.headers| - 1])
  }

  /** Push a computed value: booleans go on their stack, numbers are written to
      register `dest`. None if `dest` does not exist or if an entry that stays
      on the stack still refers to it. */
  function Store(st: State, v: Value, dest: nat): Option<State> {
    match v
    case BoolV(b) => Some(st.(bools := st.bools + [b]))
    case HeaderV(h) => Some(st.(headers := st.headers + [h]))
    case DataV(d) =>
      if dest < |st.temps| && TempRef(dest) !in st.data
      then Some(st.(temps := st.temps[dest := d], data := st.data + [TempRef(dest)]))
      else None
  }

  function LoadInto(st: State, l: Load): State {
    match l
    case LoadField(h, f) => st.(data := st.data + [FieldRef(h, f)])
    case LoadHeader(h) => st.(headers := st.headers + [h])
    case LoadBool(b) => st.(bools := st.bools + [b])
    case LoadLocal(i) => st.(data := st.data + [LocalRef(i)])
    case LoadRegisterRef(a, i) => st.(data := st.data + [RegisterRef(a, i)])
  }

  /** One op that does not jump. None on a stack underflow, an unknown constant,
      or a destination `Store` refuses. */
  function Step(env: Env, consts: seq<int>, op: Op, st: State): Option<State> {
    match op
    case LoadOp(l) => Some(LoadInto(st, l))
    case LoadConst(k) => if k < |consts| then Some(st.(data := st.data + [ConstRef(k)])) else None
    case UnaryOp(u, dest) =>
      if Height(st, UnaryIn(u)) < 1 then None else
      var v := Top(env, consts, st, UnaryIn(u));
      var below := Pop(st, UnaryIn(u));
      if u.LoadRegisterGen? then Some(below.(data := below.data + [RegisterRef(u.array_, ToSize(v.data))]))
      else Store(below, ApplyUnary(u, env, v), dest)
    case BinaryOp(b, dest) =>
      if Height(st, BinaryIn(b)) < 2 then None else
      var r := Top(env, consts, st, BinaryIn(b));
      var below := Pop(st, BinaryIn(b));
      var l := Top(env, consts, below, BinaryIn(b));
      Store(Pop(below, BinaryIn(b)), ApplyBinary(b, env, l, r), dest)
    case _ => None
  }

  /** The checked machine, from op `pc` on. A result means that no stack
      underflowed and that no op wrote a register still referenced below its
      operands. */
  function Exec(env: Env, consts: seq<int>, prog: seq<Op>, pc: nat, st: State): Option<State>
    decreases |prog| - pc
  {
    if pc >= |prog| then Some(st)
    else if prog[pc].Ternary? then
      if st.bools == [] then None
      else Exec(env, consts, prog, pc + (if st.bools[|st.bools| - 1] then 2 else 1), Pop(st, BoolTy))
    else if prog[pc].Skip? then Exec(env, consts, prog, pc + 1 + prog[pc].num, st)
    else
      var next := Step(env, consts, prog[pc], st);
      if next.None? then None else Exec(env, consts, prog, pc + 1, next.value)
  }

  /** One turn of the loop of eval_. */
  lemma {:induction false} ExecOne(env: Env, consts: seq<int>, prog: seq<Op>, pc: nat, st: State)
    requires pc < |prog| && Exec(env, consts, prog, pc, st).Some?
    ensures prog[pc].Ternary? ==> st.bools != []
    ensures Exec(env, consts, prog, pc, st) ==
            match prog[pc]
            case Ternary =>
              var top := |st.bools| - 1;
              Exec(env, consts, prog, pc + (if st.bools[top] then 2 else 1), st.(bools := st.bools[..top]))
            case Skip(num) => Exec(env, consts, prog, pc + 1 + num, st)
            case _ =>
              var next := Step(env, consts, prog[pc], st);
              if next.None? then None else Exec(env, consts, prog, pc + 1, next.value)
  {
    hide Step;
  }

  lemma {:induction false} ExecEnds(env: Env, consts: seq<int>, prog: seq<Op>, pc: nat, st: State)
    requires pc >= |prog|
    ensures Exec(env, consts, prog, pc, st) == Some(st)
  {}

  /** What can be observed of a state: the values on its stacks. */
  datatype View = View(values: seq<int>, bools: seq<bool>, headers: seq<int>, room: nat)

  function ViewOf(env: Env, consts: seq<int>, st: State): View {
    View(Values(env, consts, st), st.bools, st.headers, |st.temps|)
  }

  function PushV(w: View, v: Value): View {
    match v
    case DataV(d) => w.(values := w.values + [d])
    case BoolV(b) => w.(bools := w.bools + [b])
    case HeaderV(h) => w.(headers := w.headers + [h])
  }

  /** Every temporary on the stack is below the registers the allocator counts up
      to the abstract entry at the same depth from the top. The abstract stack may
      be the higher one. */
  ghost predicate Protected(a: seq<nat>, data: seq<Ref>) {
    && |data| <= |a|
    && forall j :: 0 <= j < |data| && data[j].TempRef? ==> data[j].reg < Sum(a[..|a| - |data| + 1 + j])
  }

  /** Entries the allocator pushed for a branch that was jumped over do no harm. */
  lemma {:induction false} ProtectedGrows(a: seq<nat>, b: seq<nat>, data: seq<Ref>)
    requires Protected(a, data) && a <= b
    ensures Protected(b, data)
  {
    forall j | 0 <= j < |data| && data[j].TempRef?
      ensures data[j].reg < Sum(b[..|b| - |data| + 1 + j])
    {
      var d := |a| - |data| + 1 + j;
      assert b[..d] == a[..d];
      SumGrows(b, d, |b| - |data| + 1 + j);
    }
  }

  /** Popping as many entries from both stacks leaves the rest protected, and
      strictly below the register about to be written. */
  lemma {:induction false} ProtectedPop(a: seq<nat>, data: seq<Ref>, m: nat)
    requires Protected(a, data) && m <= |data|
    ensures Protected(a[..|a| - m], data[..|data| - m])
    ensures forall j :: 0 <= j < |data| - m && data[j].TempRef? ==> data[j].reg < Sum(a[..|a| - m])
  {
    var (a', d') := (a[..|a| - m], data[..|data| - m]);
    forall j | 0 <= j < |d'| && d'[j].TempRef?
      ensures d'[j].reg < Sum(a'[..|a'| - |d'| + 1 + j]) && d'[j].reg < Sum(a')
    {
      var e := |a| - |data| + 1 + j;
      assert a'[..e] == a[..e];
      SumGrows(a, e, |a| - m);
    }
  }

  lemma {:induction false} ProtectedPush(a: seq<nat>, data: seq<Ref>, r: Ref, x: nat)
    requires Protected(a, data)
    requires r.TempRef? ==> r.reg < Sum(a) + x
    ensures Protected(a + [x], data + [r])
  {
    var (a', d') := (a + [x], data + [r]);
    assert a'[..|a|] == a && a'[..|a'|] == a';
    forall j | 0 <= j < |d'| && d'[j].TempRef?
      ensures d'[j].reg < Sum(a'[..|a'| - |d'| + 1 + j])
    {
      if j < |data| { assert a'[..|a| - |data| + 1 + j] == a[..|a| - |data| + 1 + j]; }
    }
  }

  // ----- compiled code computes the tree's value ----------------------------

  lemma {:induction false} PopPushed(env: Env, consts: seq<int>, w: View, st: State, v: Value)
    requires ViewOf(env, consts, st) == PushV(w, v)
    ensures Height(st, TypeOfValue(v)) > 0
    ensures Top(env, consts, st, TypeOfValue(v)) == v
    ensures ViewOf(env, consts, Pop(st, TypeOfValue(v))) == w
  {
    var low := Pop(st, TypeOfValue(v));
    match v
    case DataV(d) =>
      assert Values(env, consts, st)[|w.values|] == d;
      assert Values(env, consts, low) == w.values;
    case BoolV(b) => assert low.bools == w.bools;
    case HeaderV(h) => assert low.headers == w.headers;
  }

  lemma {:induction false} StoreStep(env: Env, consts: seq<int>, a: seq<nat>, low: State, v: Value, dest: nat)
    requires Protected(a, low.data)
    requires v.DataV? ==> dest == Sum(a) && dest < |low.temps|
    ensures Store(low, v, dest).Some?
    ensures ViewOf(env, consts, Store(low, v, dest).value) == PushV(ViewOf(env, consts, low), v)
    ensures Protected(a + (if v.DataV? then [1] else []), Store(low, v, dest).value.data)
  {
    hide Sum, Deref;
    if v.DataV? {
      ProtectedPop(a, low.data, 0);
      assert a[..|a|] == a;
      StoreKeepsValues(env, consts, low, v.data, dest);
      ProtectedPush(a, low.data, TempRef(dest), 1);
    } else {
      assert a + [] == a;
    }
  }

  /** Writing a register that nothing on the stack refers to changes no value. */
  lemma {:induction false} StoreKeepsValues(env: Env, consts: seq<int>, low: State, d: int, dest: nat)
    requires dest < |low.temps| && TempRef(dest) !in low.data
    ensures Values(env, consts, low.(temps := low.temps[dest := d], data := low.data + [TempRef(dest)]))
         == Values(env, consts, low) + [d]
  {}

  lemma {:induction false} LoadStep(env: Env, consts: seq<int>, a: seq<nat>, st: State, l: Load)
    requires Protected(a, st.data)
    ensures ViewOf(env, consts, LoadInto(st, l)) == PushV(ViewOf(env, consts, st), Loaded(l, env))
    ensures Protected(a + Pushes(LoadOp(l)), LoadInto(st, l).data)
  {
    var st' := LoadInto(st, l);
    if LoadOut(l).DataTy? {
      assert Values(env, consts, st') == Values(env, consts, st) + [Loaded(l, env).data];
      ProtectedPush(a, st.data, st'.data[|st.data|], 0);
    } else {
      assert a + [] == a;
    }
  }

  lemma {:induction false} UnaryStep(env: Env, consts: seq<int>, a: seq<nat>, w: View, st: State, u: Unary, v: Value,
                                     dest: nat)
    returns (st': State)
    requires TypeOfValue(v) == UnaryIn(u) && ViewOf(env, consts, st) == PushV(w, v)
    requires Protected(a, st.data)
    requires HasDest(UnaryOp(u, dest)) ==> dest == Sum(Below(a, UnaryOp(u, dest))) && dest < |st.temps|
    ensures Step(env, consts, UnaryOp(u, dest), st) == Some(st')
    ensures ViewOf(env, consts, st') == PushV(w, ApplyUnary(u, env, v))
    ensures Protected(Below(a, UnaryOp(u, dest)) + Pushes(UnaryOp(u, dest)), st'.data)
  {
    hide ApplyUnary, Values, Protected, PushV, Sum;
    var op := UnaryOp(u, dest);
    PopPushed(env, consts, w, st, v);
    var low := Pop(st, UnaryIn(u));
    ProtectedOperand(a, st.data, u, dest);
    if u.LoadRegisterGen? {
      st' := RegisterGenStep(env, consts, Below(a, op), low, u, v);
    } else {
      StoreStep(env, consts, Below(a, op), low, ApplyUnary(u, env, v), dest);
      st' := Store(low, ApplyUnary(u, env, v), dest).value;
    }
  }

  lemma {:induction false} ProtectedOperand(a: seq<nat>, data: seq<Ref>, u: Unary, dest: nat)
    requires Protected(a, data) && (UnaryIn(u).DataTy? ==> |data| >= 1)
    ensures Protected(Below(a, UnaryOp(u, dest)), if UnaryIn(u).DataTy? then data[..|data| - 1] else data)
  {
    hide Sum;
    ProtectedPop(a, data, Pops(UnaryOp(u, dest)));
    assert a[..|a|] == a && data[..|data|] == data;
  }

  lemma {:induction false} RegisterGenStep(env: Env, consts: seq<int>, a: seq<nat>, low: State, u: Unary, v: Value)
    returns (st': State)
    requires u.LoadRegisterGen? && v.DataV? && Protected(a, low.data)
    ensures st' == low.(data := low.data + [RegisterRef(u.array_, ToSize(v.data))])
    ensures ViewOf(env, consts, st') == PushV(ViewOf(env, consts, low), ApplyUnary(u, env, v))
    ensures Protected(a + [0], st'.data)
  {
    var r := RegisterRef(u.array_, ToSize(v.data));
    st' := low.(data := low.data + [r]);
    assert Values(env, consts, st') == Values(env, consts, low) + [env.register(u.array_, ToSize(v.data))];
    ProtectedPush(a, low.data, r, 0);
  }

  lemma {:induction false} TwoPopped(env: Env, consts: seq<int>, w: View, st: State, l: Value, r: Value)
    requires TypeOfValue(l) == TypeOfValue(r) && ViewOf(env, consts, st) == PushV(PushV(w, l), r)
    ensures var t := TypeOfValue(l);
            && Height(st, t) > 1 && Top(env, consts, st, t) == r && Top(env, consts, Pop(st, t), t) == l
            && ViewOf(env, consts, Pop(Pop(st, t), t)) == w && Pop(Pop(st, t), t).temps == st.temps
            && Pop(Pop(st, t), t).data == if t.DataTy? then st.data[..|st.data| - 2] else st.data
  {
    hide Values;
    PopPushed(env, consts, PushV(w, l), st, r);
    PopPushed(env, consts, w, Pop(st, TypeOfValue(r)), l);
  }

  lemma {:induction false} ProtectedOperands(a: seq<nat>, data: seq<Ref>, b: Binary, dest: nat)
    requires Protected(a, data) && (BinaryIn(b).DataTy? ==> |data| >= 2)
    ensures Protected(Below(a, BinaryOp(b, dest)), if BinaryIn(b).DataTy? then data[..|data| - 2] else data)
  {
    hide Sum;
    ProtectedPop(a, data, Pops(BinaryOp(b, dest)));
    assert a[..|a|] == a && data[..|data|] == data;
  }

  lemma {:induction false} BinaryStep(env: Env, consts: seq<int>, a: seq<nat>, w: View, st: State, b: Binary, l: Value,
                                      r: Value, dest: nat)
    returns (st': State)
    requires TypeOfValue(l) == TypeOfValue(r) == BinaryIn(b)
    requires ViewOf(env, consts, st) == PushV(PushV(w, l), r)
    requires Protected(a, st.data)
    requires HasDest(BinaryOp(b, dest)) ==> dest == Sum(Below(a, BinaryOp(b, dest))) && dest < |st.temps|
    ensures Step(env, consts, BinaryOp(b, dest), st) == Some(st')
    ensures ViewOf(env, consts, st') == PushV(w, ApplyBinary(b, env, l, r))
    ensures Protected(Below(a, BinaryOp(b, dest)) + Pushes(BinaryOp(b, dest)), st'.data)
  {
    hide ApplyBinary, Values, Protected, PushV, Sum;
    var (op, t, v) := (BinaryOp(b, dest), BinaryIn(b), ApplyBinary(b, env, l, r));
    TwoPopped(env, consts, w, st, l, r);
    ProtectedOperands(a, st.data, b, dest);
    var low := Pop(Pop(st, t), t);
    StoreStep(env, consts, Below(a, op), low, v, dest);
    st' := Store(low, v, dest).value;
  }

  /** The constants of `n` are where its code expects them. */
  ghost predicate ConstsAt(consts: seq<int>, k: nat, n: Node) {
    k + |Consts(n)| <= |consts| && consts[k..k + |Consts(n)|] == Consts(n)
  }

  lemma {:induction false} DestFits(prog: seq<Op>, pc: nat, count: nat)
    requires Allocated(prog, count) && pc < |prog| && HasDest(prog[pc]) && PopsFit(prog, pc)
    ensures prog[pc].dest == Sum(Below(StackAt(prog, pc), prog[pc])) < count
  {
    StackStep(prog, pc);
    assert DestAt(prog, pc);
    var low := Below(StackAt(prog, pc), prog[pc]);
    assert (low + [1])[..|low|] == low;
    assert StackAt(prog, pc + 1) == low + [1];
    assert Sum(low + [1]) == Sum(low) + 1;
  }

  /** Running the code of a well-typed tree, wherever it stands in a program,
      pushes the value of the tree and leaves the machine just past that code:
      every jump lands past its branch. On the way no stack underflows and no
      live register is overwritten, whichever branches are taken. */
  lemma {:induction false} Simulate(
    env: Env, consts: seq<int>, prog: seq<Op>, count: nat, pc: nat, n: Node, k: nat, st: State) returns (st': State)
    requires Typed(n) && CodeAt(prog, pc, n, k) && ConstsAt(consts, k, n)
    requires Allocated(prog, count) && count <= |st.temps|
    requires Protected(StackAt(prog, pc), st.data)
    ensures Exec(env, consts, prog, pc, st) == Exec(env, consts, prog, pc + Size(n), st')
    ensures ViewOf(env, consts, st') == PushV(ViewOf(env, consts, st), Denote(n, env))
    ensures Protected(StackAt(prog, pc + Size(n)), st'.data)
    decreases n, 1
  {
    hide *;
    match n
    case Leaf(l) => st' := SimulateLeaf(env, consts, prog, pc, n, k, st);
    case Constant(v) => st' := SimulateLeaf(env, consts, prog, pc, n, k, st);
    case UnaryNode(op, e) => st' := SimulateUnary(env, consts, prog, count, pc, n, k, st);
    case BinaryNode(op, l, r) => st' := SimulateBinary(env, consts, prog, count, pc, n, k, st);
    case TernaryNode(c, l, r) => st' := SimulateTernary(env, consts, prog, count, pc, n, k, st);
  }

  lemma {:induction false} SimulateLeaf(env: Env, consts: seq<int>, prog: seq<Op>, pc: nat, n: Node, k: nat, st: State)
    returns (st': State)
    requires n.Leaf? || n.Constant?
    requires CodeAt(prog, pc, n, k) && ConstsAt(consts, k, n)
    requires Protected(StackAt(prog, pc), st.data)
    ensures Exec(env, consts, prog, pc, st) == Exec(env, consts, prog, pc + Size(n), st')
    ensures ViewOf(env, consts, st') == PushV(ViewOf(env, consts, st), Denote(n, env))
    ensures Protected(StackAt(prog, pc + Size(n)), st'.data)
  {
    hide StackAt, Exec, Sum, Protected, ViewOf;
    var a := StackAt(prog, pc);
    StackStep(prog, pc);
    assert a[..|a|] == a;
    if n.Leaf? {
      LoadStep(env, consts, a, st, n.load);
      st' := LoadInto(st, n.load);
    } else {
      assert consts[k] == consts[k..k + 1][0] == n.number;
      ConstStep(env, consts, a, st, k);
      st' := st.(data := st.data + [ConstRef(k)]);
    }
    ExecStep(env, consts, prog, pc, st);
  }

  lemma {:induction false} ConstStep(env: Env, consts: seq<int>, a: seq<nat>, st: State, k: nat)
    requires Protected(a, st.data) && k < |consts|
    ensures ViewOf(env, consts, st.(data := st.data + [ConstRef(k)])) ==
            PushV(ViewOf(env, consts, st), DataV(consts[k]))
    ensures Protected(a + [0], st.data + [ConstRef(k)])
  {
    assert Values(env, consts, st.(data := st.data + [ConstRef(k)])) == Values(env, consts, st) + [consts[k]];
    ProtectedPush(a, st.data, ConstRef(k), 0);
  }

  lemma {:induction false} SimulateUnary(
    env: Env, consts: seq<int>, prog: seq<Op>, count: nat, pc: nat, n: Node, k: nat, st: State) returns (st': State)
    requires n.UnaryNode? && Typed(n) && CodeAt(prog, pc, n, k) && ConstsAt(consts, k, n)
    requires Allocated(prog, count) && count <= |st.temps|
    requires Protected(StackAt(prog, pc), st.data)
    ensures Exec(env, consts, prog, pc, st) == Exec(env, consts, prog, pc + Size(n), st')
    ensures ViewOf(env, consts, st') == PushV(ViewOf(env, consts, st), Denote(n, env))
    ensures Protected(StackAt(prog, pc + Size(n)), st'.data)
    decreases n, 0
  {
    hide StackAt, CodeAt, Size, Consts, Protected, Allocated, PushV, ViewOf, ConstsAt, Exec, Step, Denote, Typed;
    UnaryFits(prog, pc, n, k);
    UnaryMeaning(n, env);
    UnaryConsts(consts, k, n);
    var po := UnaryLayout(prog, pc, n, k);
    var s1 := Simulate(env, consts, prog, count, pc, n.arg, k, st);
    RoomKept(env, consts, st, s1, Denote(n.arg, env));
    assert PopsFit(prog, po);
    if HasDest(prog[po]) { DestFits(prog, po, count); }
    st' := UnaryStep(env, consts, StackAt(prog, po), ViewOf(env, consts, st), s1, n.uop, Denote(n.arg, env),
                     prog[po].dest);
    StackStep(prog, po);
    ExecStep(env, consts, prog, po, s1);
  }

  lemma {:induction false} SimulateBinary(
    env: Env, consts: seq<int>, prog: seq<Op>, count: nat, pc: nat, n: Node, k: nat, st: State) returns (st': State)
    requires n.BinaryNode? && Typed(n) && CodeAt(prog, pc, n, k) && ConstsAt(consts, k, n)
    requires Allocated(prog, count) && count <= |st.temps|
    requires Protected(StackAt(prog, pc), st.data)
    ensures Exec(env, consts, prog, pc, st) == Exec(env, consts, prog, pc + Size(n), st')
    ensures ViewOf(env, consts, st') == PushV(ViewOf(env, consts, st), Denote(n, env))
    ensures Protected(StackAt(prog, pc + Size(n)), st'.data)
    decreases n, 0
  {
    hide StackAt, CodeAt, Size, Consts, Protected, Allocated, PushV, ViewOf, ConstsAt, Exec, Step, Denote, Typed;
    BinaryFits(prog, pc, n, k);
    BinaryMeaning(n, env);
    BinaryConsts(consts, k, n);
    var pr, po := BinaryLayout(prog, pc, n, k);
    var (vl, vr) := (Denote(n.left, env), Denote(n.right, env));
    var s1 := Simulate(env, consts, prog, count, pc, n.left, k, st);
    RoomKept(env, consts, st, s1, vl);
    var s2 := Simulate(env, consts, prog, count, pr, n.right, k + |Consts(n.left)|, s1);
    RoomKept(env, consts, s1, s2, vr);
    assert PopsFit(prog, po);
    if HasDest(prog[po]) { DestFits(prog, po, count); }
    st' := BinaryStep(env, consts, StackAt(prog, po), ViewOf(env, consts, st), s2, n.bop, vl, vr, prog[po].dest);
    StackStep(prog, po);
    ExecStep(env, consts, prog, po, s2);
  }

  lemma {:induction false} SimulateTernary(
    env: Env, consts: seq<int>, prog: seq<Op>, count: nat, pc: nat, n: Node, k: nat, st: State) returns (st': State)
    requires n.TernaryNode? && Typed(n) && CodeAt(prog, pc, n, k) && ConstsAt(consts, k, n)
    requires Allocated(prog, count) && count <= |st.temps|
    requires Protected(StackAt(prog, pc), st.data)
    ensures Exec(env, consts, prog, pc, st) == Exec(env, consts, prog, pc + Size(n), st')
    ensures ViewOf(env, consts, st') == PushV(ViewOf(env, consts, st), Denote(n, env))
    ensures Protected(StackAt(prog, pc + Size(n)), st'.data)
    decreases n, 0
  {
    hide StackAt, CodeAt, Size, Consts, Protected, Allocated, PushV, ViewOf, ConstsAt, Exec, Step, Denote, Typed;
    TernaryMeaning(n, env);
    TernaryConsts(consts, k, n);
    var pt, ps, pe := TernaryLayout(prog, pc, n, k);
    var (kl, kr) := (k + |Consts(n.cond)|, k + |Consts(n.cond)| + |Consts(n.left)|);
    var s1 := Simulate(env, consts, prog, count, pc, n.cond, k, st);
    RoomKept(env, consts, st, s1, Denote(n.cond, env));
    PopPushed(env, consts, ViewOf(env, consts, st), s1, Denote(n.cond, env));
    var s2 := Pop(s1, BoolTy);
    StackStep(prog, pt);
    StackStep(prog, pt + 1);
    StackStep(prog, ps);
    ExecTernary(env, consts, prog, pt, s1);
    AllocatorFits(prog, pt + 2, n.left, kl);
    if Denote(n.cond, env).flag {
      st' := Simulate(env, consts, prog, count, pt + 2, n.left, kl, s2);
      ExecSkip(env, consts, prog, ps, st');
      AllocatorFits(prog, ps + 1, n.right, kr);
      ProtectedGrows(StackAt(prog, ps), StackAt(prog, pe), st'.data);
    } else {
      ExecSkip(env, consts, prog, pt + 1, s2);
      ProtectedGrows(StackAt(prog, pt + 2), StackAt(prog, ps), s2.data);
      st' := Simulate(env, consts, prog, count, ps + 1, n.right, kr, s2);
    }
  }

  // Single steps of `Exec`, and facts about the pieces of a node.

  lemma {:induction false} ExecStep(env: Env, consts: seq<int>, prog: seq<Op>, pc: nat, st: State)
    requires pc < |prog| && Step(env, consts, prog[pc], st).Some?
    ensures Exec(env, consts, prog, pc, st) == Exec(env, consts, prog, pc + 1, Step(env, consts, prog[pc], st).value)
  {}

  lemma {:induction false} ExecSkip(env: Env, consts: seq<int>, prog: seq<Op>, pc: nat, st: State)
    requires pc < |prog| && prog[pc].Skip?
    ensures Exec(env, consts, prog, pc, st) == Exec(env, consts, prog, pc + 1 + prog[pc].num, st)
  {}

  lemma {:induction false} ExecTernary(env: Env, consts: seq<int>, prog: seq<Op>, pc: nat, st: State)
    requires pc < |prog| && prog[pc].Ternary? && |st.bools| > 0
    ensures Exec(env, consts, prog, pc, st)
         == Exec(env, consts, prog, if st.bools[|st.bools| - 1] then pc + 2 else pc + 1, Pop(st, BoolTy))
  {}

  lemma {:induction false} RoomKept(env: Env, consts: seq<int>, st: State, st': State, v: Value)
    requires ViewOf(env, consts, st') == PushV(ViewOf(env, consts, st), v)
    ensures |st'.temps| == |st.temps|
  {}

  lemma {:induction false} UnaryMeaning(n: Node, env: Env)
    requires n.UnaryNode? && Typed(n)
    ensures Typed(n.arg) && TypeOfValue(Denote(n.arg, env)) == UnaryIn(n.uop)
    ensures Denote(n, env) == ApplyUnary(n.uop, env, Denote(n.arg, env))
  {}

  lemma {:induction false} BinaryMeaning(n: Node, env: Env)
    requires n.BinaryNode? && Typed(n)
    ensures Typed(n.left) && Typed(n.right)
    ensures TypeOfValue(Denote(n.left, env)) == TypeOfValue(Denote(n.right, env)) == BinaryIn(n.bop)
    ensures Denote(n, env) == ApplyBinary(n.bop, env, Denote(n.left, env), Denote(n.right, env))
  {}

  lemma {:induction false} TernaryMeaning(n: Node, env: Env)
    requires n.TernaryNode? && Typed(n)
    ensures Typed(n.cond) && Typed(n.left) && Typed(n.right) && Denote(n.cond, env).BoolV?
    ensures TypeOfValue(Denote(n.cond, env)) == BoolTy
    ensures Denote(n, env) == if Denote(n.cond, env).flag then Denote(n.left, env) else Denote(n.right, env)
  {}

  lemma {:induction false} UnaryConsts(consts: seq<int>, k: nat, n: Node)
    requires n.UnaryNode? && ConstsAt(consts, k, n)
    ensures ConstsAt(consts, k, n.arg)
  {}

  lemma {:induction false} Pieces(consts: seq<int>, k: nat, x: seq<int>, y: seq<int>)
    requires k + |x + y| <= |consts| && consts[k..k + |x + y|] == x + y
    ensures consts[k..k + |x|] == x && consts[k + |x|..k + |x| + |y|] == y
  {
    var all := consts[k..k + |x + y|];
    assert all[..|x|] == x && all[|x|..] == y;
  }

  lemma {:induction false} BinaryConsts(consts: seq<int>, k: nat, n: Node)
    requires n.BinaryNode? && ConstsAt(consts, k, n)
    ensures ConstsAt(consts, k, n.left) && ConstsAt(consts, k + |Consts(n.left)|, n.right)
  {
    hide Consts;
    ConstsParts(n);
    Pieces(consts, k, Consts(n.left), Consts(n.right));
  }

  lemma {:induction false} TernaryConsts(consts: seq<int>, k: nat, n: Node)
    requires n.TernaryNode? && ConstsAt(consts, k, n)
    ensures ConstsAt(consts, k, n.cond)
    ensures ConstsAt(consts, k + |Consts(n.cond)|, n.left)
    ensures ConstsAt(consts, k + |Consts(n.cond)| + |Consts(n.left)|, n.right)
  {
    hide Consts;
    ConstsParts(n);
    Pieces(consts, k, Consts(n.cond) + Consts(n.left), Consts(n.right));
    Pieces(consts, k, Consts(n.cond), Consts(n.left));
  }

  /** Compiler correctness: a program holding exactly the code of a well-typed
      tree runs to completion, from any contents of the temporaries, and leaves
      exactly the value of the tree. */
  lemma {:induction false} CompiledCodeIsCorrect(
    env: Env, prog: seq<Op>, count: nat, n: Node, temps: seq<int>) returns (st: State)
    requires Typed(n) && CodeAt(prog, 0, n, 0) && |prog| == Size(n)
    requires Allocated(prog, count) && count <= |temps|
    ensures Exec(env, Consts(n), prog, 0, State([], [], [], temps)) == Some(st)
    ensures ViewOf(env, Consts(n), st) == PushV(View([], [], [], |temps|), Denote(n, env))
  {
    hide Denote, CodeAt, Typed, Allocated;
    var start := State([], [], [], temps);
    assert Consts(n)[0..0 + |Consts(n)|] == Consts(n);
    assert Values(env, Consts(n), start) == [];
    st := Simulate(env, Consts(n), prog, count, 0, n, 0, start);
  }

  // ----- variable-length headers --------------------------------------------

  function ResolveOp(op: Op, header: int): Op {
    if op.LoadOp? && op.load.LoadLocal? then LoadOp(LoadField(header, op.load.offset)) else op
  }

  /** The tree in which the fields of `header` stand for the locals. */
  function ResolveTree(n: Node, header: int): Node {
    match n
    case Leaf(l) => if l.LoadLocal? then Leaf(LoadField(header, l.offset)) else n
    case Constant(_) => n
    case UnaryNode(op, e) => UnaryNode(op, ResolveTree(e, header))
    case BinaryNode(op, l, r) => BinaryNode(op, ResolveTree(l, header), ResolveTree(r, header))
    case TernaryNode(c, l, r) => TernaryNode(ResolveTree(c, header), ResolveTree(l, header), ResolveTree(r, header))
  }

  /** Resolving reads field `i` of the header wherever the expression read local `i`. */
  lemma {:induction false} ResolveMeaning(n: Node, header: int, env: Env)
    requires Typed(n)
    ensures Typed(ResolveTree(n, header)) && TypeOf(ResolveTree(n, header)) == TypeOf(n)
    ensures Denote(ResolveTree(n, header), env) == Denote(n, env.(local := i => env.field(header, i)))
  {
    match n
    case Leaf(_) =>
    case Constant(_) =>
    case UnaryNode(op, e) => ResolveMeaning(e, header, env);
    case BinaryNode(op, l, r) => ResolveMeaning(l, header, env); ResolveMeaning(r, header, env);
    case TernaryNode(c, l, r) =>
      ResolveMeaning(c, header, env); ResolveMeaning(l, header, env); ResolveMeaning(r, header, env);
  }

  lemma {:induction false} ResolveSizes(n: Node, header: int)
    ensures Size(ResolveTree(n, header)) == Size(n) && Consts(ResolveTree(n, header)) == Consts(n)
  {
    match n
    case Leaf(_) =>
    case Constant(_) =>
    case UnaryNode(_, e) => ResolveSizes(e, header);
    case BinaryNode(_, l, r) => ResolveSizes(l, header); ResolveSizes(r, header);
    case TernaryNode(c, l, r) => ResolveSizes(c, header); ResolveSizes(l, header); ResolveSizes(r, header);
  }

  lemma {:induction false} ResolveCode(prog: seq<Op>, prog': seq<Op>, pc: nat, n: Node, k: nat, header: int)
    requires CodeAt(prog, pc, n, k) && |prog'| == |prog|
    requires forall i :: 0 <= i < |prog| ==> prog'[i] == ResolveOp(prog[i], header)
    ensures CodeAt(prog', pc, ResolveTree(n, header), k)
    decreases n, 1
  {
    match n
    case Leaf(_) =>
    case Constant(_) =>
    case UnaryNode(_, e) =>
      ResolveSizes(e, header);
      ResolveCode(prog, prog', pc, e, k, header);
    case BinaryNode(_, _, _) => ResolveBinary(prog, prog', pc, n, k, header);
    case TernaryNode(_, _, _) => ResolveTernary(prog, prog', pc, n, k, header);
  }

  lemma {:induction false} ResolveBinary(prog: seq<Op>, prog': seq<Op>, pc: nat, n: Node, k: nat, header: int)
    requires n.BinaryNode? && CodeAt(prog, pc, n, k) && |prog'| == |prog|
    requires forall i :: 0 <= i < |prog| ==> prog'[i] == ResolveOp(prog[i], header)
    ensures CodeAt(prog', pc, ResolveTree(n, header), k)
    decreases n, 0
  {
    hide CodeAt, Size, Consts;
    var pr, po := BinaryLayout(prog, pc, n, k);
    ResolveSizes(n.left, header);
    ResolveSizes(n.right, header);
    ResolveCode(prog, prog', pc, n.left, k, header);
    ResolveCode(prog, prog', pr, n.right, k + |Consts(n.left)|, header);
    var _, _ := BinaryLayout(prog', pc, ResolveTree(n, header), k);
  }

  lemma {:induction false} ResolveTernary(prog: seq<Op>, prog': seq<Op>, pc: nat, n: Node, k: nat, header: int)
    requires n.TernaryNode? && CodeAt(prog, pc, n, k) && |prog'| == |prog|
    requires forall i :: 0 <= i < |prog| ==> prog'[i] == ResolveOp(prog[i], header)
    ensures CodeAt(prog', pc, ResolveTree(n, header), k)
    decreases n, 0
  {
    hide CodeAt, Size, Consts;
    var pt, ps, _ := TernaryLayout(prog, pc, n, k);
    ResolveSizes(n.cond, header);
    ResolveSizes(n.left, header);
    ResolveSizes(n.right, header);
    ResolveCode(prog, prog', pc, n.cond, k, header);
    ResolveCode(prog, prog', pt + 2, n.left, k + |Consts(n.cond)|, header);
    ResolveCode(prog, prog', ps + 1, n.right, k + |Consts(n.cond)| + |Consts(n.left)|, header);
    var _, _, _ := TernaryLayout(prog', pc, ResolveTree(n, header), k);
  }

  // ----- the classes of the source ------------------------------------------

  class Expression {
    var ops: seq<Op>
    var consts: seq<int>
    var registersCount: nat
    var built: bool

    constructor ()
      ensures ops == [] && consts == [] && registersCount == 0 && built
    {
      ops, consts, registersCount, built := [], [], 0, true;
    }

    /** This expression holds exactly the code of tree `n`. */
    ghost predicate Holds(n: Node)
      reads this
    {
      CodeAt(ops, 0, n, 0) && |ops| == Size(n) && consts == Consts(n)
    }

    /** ... and has been built, so that it can be evaluated. */
    ghost predicate Ready(n: Node)
      reads this
    {
      built && Holds(n) && Allocated(ops, registersCount)
    }

    method PushBackLoadConst(d: int)
      modifies this`ops, this`consts
      ensures consts == old(consts) + [d] && ops == old(ops) + [LoadConst(|old(consts)|)]
    {
      consts := consts + [d];
      ops := ops + [LoadConst(|consts| - 1)];
    }

    method PushBackOp(op: Op)
      modifies this`ops
      ensures ops == old(ops) + [op]
    {
      ops := ops + [op];
    }

    method AppendExpression(e: Expression)
      requires e != this
      modifies this`ops, this`consts
      ensures |ops| == |old(ops)| + |e.ops| && old(ops) <= ops
      ensures forall i :: 0 <= i < |e.ops| ==> ops[i + |old(ops)|] == RelocateOp(e.ops[i], |old(consts)|)
      ensures consts == old(consts) + e.consts
    {
      var offset := |consts|;
      for i := 0 to |e.ops|
        invariant |ops| == |old(ops)| + i && old(ops) <= ops && consts == old(consts)
        invariant forall j :: 0 <= j < i ==> ops[j + |old(ops)|] == RelocateOp(e.ops[j], offset)
      {
        ops := ops + [e.ops[i]];
        if e.ops[i].LoadConst? {
          ops := ops[|ops| - 1 := LoadConst(e.ops[i].constOffset + offset)];
        }
      }
      consts := consts + e.consts;
    }

    /** Two jumps around the appended branches. */
    method PushBackTernaryOp(e1: Expression, e2: Expression, ghost l: Node, ghost r: Node)
      requires e1 != this && e2 != this
      modifies this`ops, this`consts
      ensures old(ops) <= ops && consts == old(consts) + e1.consts + e2.consts
      ensures e1.Holds(l) && e2.Holds(r) ==>
        var p := |old(ops)|;
        && |ops| == p + 2 + Size(l) + 1 + Size(r)
        && ops[p] == Ternary && ops[p + 1] == Skip(Size(l) + 1)
        && CodeAt(ops, p + 2, l, |old(consts)|)
        && ops[p + 2 + Size(l)] == Skip(Size(r))
        && CodeAt(ops, p + 3 + Size(l), r, |old(consts)| + |Consts(l)|)
    {
      hide CodeAt, Size, Consts, RelocateOp;
      ghost var (start, c) := (ops, |consts|);
      ops := ops + [Ternary];
      ops := ops + [Skip(|e1.ops| + 1)];
      AppendExpression(e1);
      ghost var first := ops;
      ops := ops + [Skip(|e2.ops|)];
      AppendExpression(e2);
      if e1.Holds(l) && e2.Holds(r) {
        TernaryAppended(start, first, ops, e1.ops, e2.ops, l, r, c);
      }
    }

    method AssignDestRegisters() returns (count: nat)
      requires forall i :: 0 <= i < |ops| ==> PopsFit(ops, i)
      modifies this`ops
      ensures Moved(old(ops), 0, |old(ops)|, ops, 0, 0) && |ops| == |old(ops)|
      ensures Allocated(ops, count)
    {
      hide StackAt, Sum;
      ghost var start := ops;
      count := 0;
      var curr, registers: seq<nat> := 0, [];
      EmptyStack(start);
      for i := 0 to |ops|
        invariant |ops| == |start|
        invariant registers == StackAt(start, i) && curr == Sum(registers)
        invariant forall j :: 0 <= j <= i ==> Sum(StackAt(start, j)) <= count
        invariant forall j :: 0 <= j < i ==> ops[j] == WithDest(start, j)
        invariant forall j :: i <= j < |ops| ==> ops[j] == start[j]
      {
        assert PopsFit(start, i);
        StackStep(start, i);
        var op;
        op, curr, registers := AssignOne(ops[i], curr, registers);
        ops := ops[i := op];
        count := if count < curr then curr else count;
      }
      AllocatedFromPass(start, ops, count);
    }

    method Build(ghost n: Node)
      requires Typed(n) && Holds(n)
      modifies this`ops, this`registersCount, this`built
      ensures Ready(n)
    {
      hide CodeAt, Allocated, Typed, Size, Consts, StackAt;
      AllocatorFits(ops, 0, n, 0);
      ghost var start := ops;
      registersCount := AssignDestRegisters();
      built := true;
      CodeMoves(start, 0, n, 0, ops, 0, 0);
    }

    /** VLHeaderExpression::resolve on a built expression. */
    method Resolve(header: int, ghost n: Node) returns (e: Expression)
      requires built && (Typed(n) && Ready(n))
      ensures fresh(e) && e.Ready(ResolveTree(n, header))
    {
      hide CodeAt, Allocated, Typed, Size, Consts;
      e := new Expression();
      e.consts, e.registersCount := consts, registersCount;
      for i := 0 to |ops|
        invariant |e.ops| == i && e.consts == consts && e.registersCount == registersCount && e.built
        invariant unchanged(this)
        invariant forall j :: 0 <= j < i ==> e.ops[j] == ResolveOp(ops[j], header)
      {
        e.ops := e.ops + [ops[i]];
        if ops[i].LoadOp? && ops[i].load.LoadLocal? {
          e.ops := e.ops[i := LoadOp(LoadField(header, ops[i].load.offset))];
        }
      }
      ResolveCode(ops, e.ops, 0, n, 0, header);
      ResolveSizes(n, header);
      ResolveAllocated(ops, e.ops, registersCount, header);
    }
  }

  /** The switch of assign_dest_registers. */
  method AssignOne(op: Op, curr: nat, registers: seq<nat>) returns (op': Op, curr': nat, registers': seq<nat>)
    requires Pops(op) <= |registers| && curr == Sum(registers)
    ensures registers' == Below(registers, op) + Pushes(op) && curr' == Sum(registers')
    ensures op' == if HasDest(op) then SetDest(op, Sum(Below(registers, op))) else op
  {
    hide Sum;
    assert registers[..|registers|] == registers;
    op', curr', registers' := op, curr, registers;
    match op {
      case BinaryOp(b, _) =>
        if b.Arith? || b.Compare? {
          SumPop(registers, 2);
          curr' := curr' - registers'[|registers'| - 1];
          registers' := registers'[..|registers'| - 1];
          curr' := curr' - registers'[|registers'| - 1];
          registers' := registers'[..|registers'| - 1];
        }
        if b.Arith? {
          op' := BinaryOp(b, curr');
          SumPush(registers', 1);
          registers', curr' := registers' + [1], curr' + 1;
        }
      case UnaryOp(u, _) =>
        if u.BitNeg? || u.DataToBool? || u.LoadRegisterGen? {
          SumPop(registers, 1);
          curr' := curr' - registers'[|registers'| - 1];
          registers' := registers'[..|registers'| - 1];
        }
        if u.BitNeg? || u.BoolToData? {
          op' := UnaryOp(u, curr');
          SumPush(registers', 1);
          registers', curr' := registers' + [1], curr' + 1;
        } else if u.LoadRegisterGen? {
          SumPush(registers', 0);
          registers' := registers' + [0];
        }
      case LoadOp(l) =>
        if l.LoadLocal? || l.LoadField? || l.LoadRegisterRef? {
          SumPush(registers', 0);
          registers' := registers' + [0];
        }
      case LoadConst(_) =>
        SumPush(registers', 0);
        registers' := registers' + [0];
      case Ternary =>
      case Skip(_) =>
    }
  }

  function WithDest(prog: seq<Op>, i: nat): Op
    requires i < |prog|
  {
    if HasDest(prog[i]) then SetDest(prog[i], Sum(Below(StackAt(prog, i), prog[i]))) else prog[i]
  }

  lemma {:induction false} EmptyStack(prog: seq<Op>)
    ensures StackAt(prog, 0) == [] && Sum([]) == 0
  {}

  lemma {:induction false} SumPush(s: seq<nat>, x: nat)
    ensures Sum(s + [x]) == Sum(s) + x
  {
    assert (s + [x])[..|s|] == s;
  }

  lemma {:induction false} SumPop(s: seq<nat>, m: nat)
    requires 1 <= m <= 2 && m <= |s|
    ensures Sum(s[..|s| - 1]) == Sum(s) - s[|s| - 1]
    ensures m == 2 ==> Sum(s[..|s| - 2]) == Sum(s) - s[|s| - 1] - s[|s| - 2]
    ensures m == 2 ==> s[..|s| - 1][..|s| - 2] == s[..|s| - 2]
  {
    if m == 2 { assert s[..|s| - 1][..|s| - 2] == s[..|s| - 2]; }
  }

  lemma {:induction false} AllocatedFromPass(start: seq<Op>, prog: seq<Op>, count: nat)
    requires |prog| == |start|
    requires forall j :: 0 <= j < |start| ==> prog[j] == WithDest(start, j)
    requires forall j :: 0 <= j <= |start| ==> Sum(StackAt(start, j)) <= count
    ensures Allocated(prog, count) && Moved(start, 0, |start|, prog, 0, 0)
  {
    hide StackAt, Sum;
    forall i | 0 <= i <= |prog| ensures StackAt(prog, i) == StackAt(start, i) {
      SameStacks(prog, start, i);
    }
  }

  lemma {:induction false} ResolveAllocated(prog: seq<Op>, prog': seq<Op>, count: nat, header: int)
    requires Allocated(prog, count) && |prog'| == |prog|
    requires forall i :: 0 <= i < |prog| ==> prog'[i] == ResolveOp(prog[i], header)
    ensures Allocated(prog', count)
  {
    hide StackAt, Sum;
    forall i | 0 <= i <= |prog| ensures StackAt(prog', i) == StackAt(prog, i) {
      SameStacks(prog', prog, i);
    }
  }

  /** P4Objects::build_expression appends the code of a JSON tree. */
  method BuildExpression(j: Json, expr: Expression)
    modifies expr`ops, expr`consts
    ensures old(expr.ops) <= expr.ops && old(expr.consts) <= expr.consts
    ensures j.JNull? ==> expr.ops == old(expr.ops) && expr.consts == old(expr.consts)
    ensures Tree(j).Some? ==> Emitted(old(expr.ops), old(expr.consts), expr.ops, expr.consts, Tree(j).value)
    decreases j, 1
  {
    hide CodeAt, Size, Consts, Emitted;
    match j {
      case JNull =>
      case JTernary(_, _, _) => BuildTernary(j, expr);
      case JBinary(op, l, r) =>
        if UnarySign(op, l) {
          expr.PushBackLoadConst(0);
          EmittedConst(old(expr.ops), old(expr.consts), 0);
        } else {
          BuildExpression(l, expr);
        }
        ghost var (ops1, consts1) := (expr.ops, expr.consts);
        BuildExpression(r, expr);
        ghost var ops2 := expr.ops;
        expr.PushBackOp(BinaryOp(op, 0));
        if Tree(j).Some? {
          EmittedBinary(old(expr.ops), old(expr.consts), ops1, consts1, ops2, expr.consts, Tree(j).value);
        }
      case JUnary(op, l, r) =>
        BuildExpression(l, expr);
        BuildExpression(r, expr);
        ghost var ops1 := expr.ops;
        expr.PushBackOp(UnaryOp(op, 0));
        if Tree(j).Some? { EmittedUnary(old(expr.ops), old(expr.consts), ops1, expr.consts, Tree(j).value); }
      case JLoad(l) =>
        expr.PushBackOp(LoadOp(l));
        EmittedLoad(old(expr.ops), old(expr.consts), l);
      case JHex(v) =>
        expr.PushBackLoadConst(v);
        EmittedConst(old(expr.ops), old(expr.consts), v);
      case JRegister(a, i) =>
        if i.JHex? {
          expr.PushBackOp(LoadOp(LoadRegisterRef(a, ToUint(i.number))));
          EmittedLoad(old(expr.ops), old(expr.consts), LoadRegisterRef(a, ToUint(i.number)));
        } else {
          BuildExpression(i, expr);
          ghost var ops1 := expr.ops;
          expr.PushBackOp(UnaryOp(LoadRegisterGen(a), 0));
          if Tree(j).Some? { EmittedUnary(old(expr.ops), old(expr.consts), ops1, expr.consts, Tree(j).value); }
        }
    }
  }

  /** The ternary case, whose branches are built on their own. */
  method BuildTernary(j: Json, expr: Expression)
    requires j.JTernary?
    modifies expr`ops, expr`consts
    ensures old(expr.ops) <= expr.ops && old(expr.consts) <= expr.consts
    ensures Tree(j).Some? ==> Emitted(old(expr.ops), old(expr.consts), expr.ops, expr.consts, Tree(j).value)
    decreases j, 0
  {
    hide CodeAt, Size, Consts, Emitted;
    var JTernary(c, l, r) := j;
    BuildExpression(c, expr);
    var e1 := new Expression();
    var e2 := new Expression();
    BuildExpression(l, e1);
    BuildExpression(r, e2);
    ghost var (ops, consts) := (expr.ops, expr.consts);
    ghost var tl := if Tree(l).Some? then Tree(l).value else Constant(0);
    ghost var tr := if Tree(r).Some? then Tree(r).value else Constant(0);
    if Tree(j).Some? {
      EmittedAlone(e1.ops, e1.consts, tl);
      EmittedAlone(e2.ops, e2.consts, tr);
    }
    expr.PushBackTernaryOp(e1, e2, tl, tr);
    if Tree(j).Some? {
      EmittedTernary(old(expr.ops), old(expr.consts), ops, consts, expr.ops, expr.consts, Tree(j).value);
    }
  }

  /** `ops'` and `consts'` are `ops` and `consts` followed by the code and the
      constants of `n`. */
  ghost predicate Emitted(ops: seq<Op>, consts: seq<int>, ops': seq<Op>, consts': seq<int>, n: Node) {
    && ops <= ops' && |ops'| == |ops| + Size(n)
    && CodeAt(ops', |ops|, n, |consts|)
    && consts' == consts + Consts(n)
  }

  lemma {:induction false} EmittedAlone(ops: seq<Op>, consts: seq<int>, n: Node)
    requires Emitted([], [], ops, consts, n)
    ensures CodeAt(ops, 0, n, 0) && |ops| == Size(n) && consts == Consts(n)
  {
    assert [] + Consts(n) == Consts(n);
  }

  lemma {:induction false} EmittedLoad(ops: seq<Op>, consts: seq<int>, l: Load)
    ensures Emitted(ops, consts, ops + [LoadOp(l)], consts, Leaf(l))
  {
    assert consts + [] == consts;
  }

  lemma {:induction false} EmittedConst(ops: seq<Op>, consts: seq<int>, v: int)
    ensures Emitted(ops, consts, ops + [LoadConst(|consts|)], consts + [v], Constant(v))
  {}

  lemma {:induction false} EmittedUnary(ops: seq<Op>, consts: seq<int>, ops1: seq<Op>, consts1: seq<int>, n: Node)
    requires n.UnaryNode? && Emitted(ops, consts, ops1, consts1, n.arg)
    ensures Emitted(ops, consts, ops1 + [UnaryOp(n.uop, 0)], consts1, n)
  {
    hide CodeAt, Size, Consts;
    ConstsParts(n);
    var all := ops1 + [UnaryOp(n.uop, 0)];
    CodeKept(ops1, |ops|, n.arg, |consts|, all);
    var _ := UnaryLayout(all, |ops|, n, |consts|);
  }

  lemma {:induction false} ConstsParts(n: Node)
    ensures n.UnaryNode? ==> Consts(n) == Consts(n.arg)
    ensures n.BinaryNode? ==> Consts(n) == Consts(n.left) + Consts(n.right)
    ensures n.TernaryNode? ==> Consts(n) == Consts(n.cond) + Consts(n.left) + Consts(n.right)
  {}

  lemma {:induction false} EmittedBinary(ops: seq<Op>, consts: seq<int>, ops1: seq<Op>, consts1: seq<int>,
                      ops2: seq<Op>, consts2: seq<int>, n: Node)
    requires n.BinaryNode? && Emitted(ops, consts, ops1, consts1, n.left)
    requires Emitted(ops1, consts1, ops2, consts2, n.right)
    ensures Emitted(ops, consts, ops2 + [BinaryOp(n.bop, 0)], consts2, n)
  {
    hide CodeAt, Size, Consts;
    var all := ops2 + [BinaryOp(n.bop, 0)];
    ConstsParts(n);
    assert consts2 == consts + (Consts(n.left) + Consts(n.right));
    CodeKept(ops1, |ops|, n.left, |consts|, all);
    CodeKept(ops2, |ops1|, n.right, |consts1|, all);
    var _, _ := BinaryLayout(all, |ops|, n, |consts|);
  }

  lemma {:induction false} EmittedTernary(ops: seq<Op>, consts: seq<int>, ops1: seq<Op>, consts1: seq<int>,
                       all: seq<Op>, consts2: seq<int>, n: Node)
    requires n.TernaryNode? && Emitted(ops, consts, ops1, consts1, n.cond)
    requires ops1 <= all && consts2 == consts1 + Consts(n.left) + Consts(n.right)
    requires
      var p := |ops1|;
      && |all| == p + 2 + Size(n.left) + 1 + Size(n.right)
      && all[p] == Ternary && all[p + 1] == Skip(Size(n.left) + 1)
      && CodeAt(all, p + 2, n.left, |consts1|)
      && all[p + 2 + Size(n.left)] == Skip(Size(n.right))
      && CodeAt(all, p + 3 + Size(n.left), n.right, |consts1| + |Consts(n.left)|)
    ensures Emitted(ops, consts, all, consts2, n)
  {
    hide CodeAt, Size, Consts;
    ConstsParts(n);
    CodeKept(ops1, |ops|, n.cond, |consts|, all);
    var _, _, _ := TernaryLayout(all, |ops|, n, |consts|);
  }

  /** Appending ops keeps the code that is already there. */
  lemma {:induction false} CodeKept(prog: seq<Op>, pc: nat, n: Node, k: nat, prog': seq<Op>)
    requires CodeAt(prog, pc, n, k) && prog <= prog'
    ensures CodeAt(prog', pc, n, k)
  {
    assert pc + Size(n) <= |prog|;
    hide CodeAt, Size;
    CodeMoves(prog, pc, n, k, prog', 0, 0);
  }

  /** The thread-local storage of eval_, kept from one call to the next. */
  class EvalThread {
    var dataTemps: seq<int>

    constructor ()
      ensures |dataTemps| == 4
    {
      dataTemps := [0, 0, 0, 0];
    }

    /** Expression::eval_: the value of the tree the expression was built from;
        false or 0 for an empty expression. */
    method Eval(e: Expression, env: Env, t: Ty, ghost n: Option<Node>) returns (v: Value)
      requires t.DataTy? || t.BoolTy?
      requires n.None? ==> e.ops == []
      requires n.Some? ==> Typed(n.value) && TypeOf(n.value) == t && e.Ready(n.value)
      modifies this
      ensures n.None? ==> v == if t.BoolTy? then BoolV(false) else DataV(0)
      ensures n.Some? ==> v == Denote(n.value, env) && Means(n.value, env, v)
    {
      hide CodeAt, Typed, Allocated, Consts, StackAt, Denote, Sum, Exec, Step, Means;
      if e.ops == [] {
        v := if t.BoolTy? then BoolV(false) else DataV(0);
        if n.Some? { NeverEmpty(n.value); }
        return;
      }
      while |dataTemps| < e.registersCount {
        dataTemps := dataTemps + [0];
      }
      ghost var last := CompiledCodeIsCorrect(env, e.ops, e.registersCount, n.value, dataTemps);
      var data: seq<Ref>, bools: seq<bool>, headers: seq<int> := [], [], [];
      var i := 0;
      while i < |e.ops|
        invariant Exec(env, e.consts, e.ops, i, State(data, bools, headers, dataTemps)) == Some(last)
        decreases |e.ops| - i
      {
        ExecOne(env, e.consts, e.ops, i, State(data, bools, headers, dataTemps));
        var op := e.ops[i];
        match op {
          case Ternary =>
            if bools[|bools| - 1] { i := i + 1; }
            bools := bools[..|bools| - 1];
          case Skip(num) =>
            i := i + num;
          case _ =>
            data, bools, headers := EvalOp(env, e.consts, op, data, bools, headers);
        }
        i := i + 1;
      }
      ExecEnds(env, e.consts, e.ops, i, State(data, bools, headers, dataTemps));
      FinalTop(env, e.consts, last, Denote(n.value, env));
      v := if t.BoolTy? then BoolV(bools[|bools| - 1])
           else DataV(Deref(env, e.consts, dataTemps, data[|data| - 1]));
      DenoteMeans(n.value, env, v);
    }

    /** The cases of the switch in eval_ that do not jump. */
    method EvalOp(env: Env, consts: seq<int>, op: Op, data: seq<Ref>, bools: seq<bool>, headers: seq<int>)
      returns (data': seq<Ref>, bools': seq<bool>, headers': seq<int>)
      requires Step(env, consts, op, State(data, bools, headers, dataTemps)).Some?
      modifies this
      ensures Step(env, consts, op, old(State(data, bools, headers, dataTemps))) ==
              Some(State(data', bools', headers', dataTemps))
    {
      data', bools', headers' := data, bools, headers;
      match op {
        case LoadOp(l) =>
          match l {
            case LoadField(h, f) => data' := data + [FieldRef(h, f)];
            case LoadHeader(h) => headers' := headers + [h];
            case LoadBool(b) => bools' := bools + [b];
            case LoadLocal(k) => data' := data + [LocalRef(k)];
            case LoadRegisterRef(a, k) => data' := data + [RegisterRef(a, k)];
          }
        case LoadConst(k) => data' := data + [ConstRef(k)];
        case UnaryOp(u, dest) => data', bools', headers' := EvalUnary(env, consts, u, dest, data, bools, headers);
        case BinaryOp(b, dest) => data', bools', headers' := EvalBinary(env, consts, b, dest, data, bools, headers);
      }
    }

    method EvalUnary(env: Env, consts: seq<int>, u: Unary, dest: nat, data: seq<Ref>, bools: seq<bool>,
                     headers: seq<int>)
      returns (data': seq<Ref>, bools': seq<bool>, headers': seq<int>)
      requires Step(env, consts, UnaryOp(u, dest), State(data, bools, headers, dataTemps)).Some?
      modifies this
      ensures Step(env, consts, UnaryOp(u, dest), old(State(data, bools, headers, dataTemps)))
           == Some(State(data', bools', headers', dataTemps))
    {
      data', bools', headers' := data, bools, headers;
      match u {
        case Not =>
          bools' := bools[..|bools| - 1] + [!bools[|bools| - 1]];
        case ValidHeader =>
          bools' := bools + [env.valid(headers[|headers| - 1])];
          headers' := headers[..|headers| - 1];
        case DataToBool =>
          bools' := bools + [Deref(env, consts, dataTemps, data[|data| - 1]) != 0];
          data' := data[..|data| - 1];
        case BoolToData =>
          dataTemps := dataTemps[dest := if bools[|bools| - 1] then 1 else 0];
          bools' := bools[..|bools| - 1];
          data' := data + [TempRef(dest)];
        case BitNeg =>
          dataTemps := dataTemps[dest := env.bitNeg(Deref(env, consts, dataTemps, data[|data| - 1]))];
          data' := data[..|data| - 1] + [TempRef(dest)];
        case LoadRegisterGen(a) =>
          var index := Deref(env, consts, dataTemps, data[|data| - 1]) % 0x1_0000_0000_0000_0000;
          data' := data[..|data| - 1] + [RegisterRef(a, index)];
      }
    }

    method EvalBinary(env: Env, consts: seq<int>, b: Binary, dest: nat, data: seq<Ref>, bools: seq<bool>,
                      headers: seq<int>)
      returns (data': seq<Ref>, bools': seq<bool>, headers': seq<int>)
      requires Step(env, consts, BinaryOp(b, dest), State(data, bools, headers, dataTemps)).Some?
      modifies this
      ensures Step(env, consts, BinaryOp(b, dest), old(State(data, bools, headers, dataTemps)))
           == Some(State(data', bools', headers', dataTemps))
    {
      data', bools', headers' := data, bools, headers;
      if b.And? || b.Or? {
        var r := bools[|bools| - 1];
        var l := bools[|bools| - 2];
        bools' := bools[..|bools| - 1][..|bools| - 2] + [if b.And? then l && r else l || r];
      } else {
        var r := Deref(env, consts, dataTemps, data[|data| - 1]);
        var l := Deref(env, consts, dataTemps, data[|data| - 2]);
        data' := data[..|data| - 1][..|data| - 2];
        if b.Compare? {
          var flag := match b.compare
            case Eq => l == r
            case Neq => l != r
            case Gt => l > r
            case Lt => l < r
            case Get => l >= r
            case Let => l <= r;
          bools' := bools + [flag];
        } else {
          dataTemps := dataTemps[dest := env.arith(b.arith, l, r)];
          data' := data' + [TempRef(dest)];
        }
      }
    }
  }

  lemma {:induction false} NeverEmpty(n: Node)
    ensures Size(n) > 0
  {}

  lemma {:induction false} FinalTop(env: Env, consts: seq<int>, st: State, v: Value)
    requires ViewOf(env, consts, st) == PushV(View([], [], [], |st.temps|), v)
    ensures Height(st, TypeOfValue(v)) == 1 && Top(env, consts, st, TypeOfValue(v)) == v
  {
    PopPushed(env, consts, View([], [], [], |st.temps|), st, v);
  }

  /** From JSON to value: building, allocating and evaluating an expression gives
      the recursive value of the tree it denotes. */
  method CompileAndEval(j: Json, env: Env, thread: EvalThread) returns (v: Value)
    requires Tree(j).Some? && Typed(Tree(j).value) && !TypeOf(Tree(j).value).HeaderTy?
    modifies thread
    ensures v == Denote(Tree(j).value, env) && Means(Tree(j).value, env, v)
  {
    hide CodeAt, Typed, Allocated, Denote, Tree, Means;
    var e := new Expression();
    BuildExpression(j, e);
    ghost var n := Tree(j).value;
    EmittedAlone(e.ops, e.consts, n);
    e.Build(n);
    var t := ResultType(j);
    v := thread.Eval(e, env, t, Some(n));
    DenoteMeans(n, env, v);
  }

  function ResultType(j: Json): Ty
    requires Tree(j).Some?
  {
    TypeOf(Tree(j).value)
  }
}
