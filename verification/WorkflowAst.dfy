/** The slice of the Workflow syntax tree that the animation compiler emits:
    enough to pin down the exact shape of the generated class, and nothing of
    what the emitted code computes at run time. */
module WorkflowAst {
  import opened Basics

  /** Emitted type references. `SharedPtrOf` is the animated class (held through
      `Ptr`), `ValueOf` a leaf's own declared type. */
  datatype TypeRef = SharedPtrOf(name: string) | ValueOf(name: string) | DoubleType | VoidType | DoubleToDouble

  datatype BinaryOp = Add | Sub | Mul | Div | Assign

  datatype Expr =
    | Ref(name: string)                            // WfReferenceExpression
    | Member(parent: Expr, name: string)           // WfMemberExpression
    | StrongCast(expr: Expr, castType: TypeRef)    // WfTypeCastingExpression, strategy Strong
    | Binary(op: BinaryOp, first: Expr, second: Expr)
    | Call(callee: Expr, arguments: seq<Expr>)
    | MathMember(name: string)                     // WfChildExpression on the Math type
    | FloatLit(text: string)
    | StringLit(text: string)
    | OrderedName(name: string)                    // `$1`
    | OrderedLambda(body: Expr)
    | DefaultValue(ofType: TypeRef)                // CreateDefaultValue
    | Opaque(text: string)                         // an expression built outside this core

  datatype Stmt =
    | Block(statements: seq<Stmt>)
    | VarDecl(name: string, init: Expr)              // WfVariableStatement
    | ExprStmt(expr: Expr)
    | Return(expr: Expr)
    | Raise(expr: Expr)

  datatype Arg = Arg(name: string, argType: TypeRef)

  /** Every declaration is added as a normal class member. A variable whose
      initializer could not be parsed has none. */
  datatype Decl =
    | AutoProperty(name: string, propType: TypeRef, init: Expr, writable: bool, observable: bool)
    | Variable(name: string, varType: TypeRef, value: Option<Expr>, attributes: seq<(string, string)>)
    | Function(name: string, arguments: seq<Arg>, returnType: TypeRef, body: Stmt)

  datatype ClassDecl = ClassDecl(name: string, declarations: seq<Decl>)

  datatype Module = Module(name: string, classes: seq<ClassDecl>)

  /** An enumeration accessor is a path of member names: applied to an
      expression it reads one member after the other. */
  function Access(path: seq<string>, e: Expr): (r: Expr)
    ensures path == [] ==> r == e
    ensures path != [] ==> r.Member? && r.name == path[|path| - 1]
  {
    if path == [] then e else Member(Access(path[..|path| - 1], e), path[|path| - 1])
  }

  /** Composing two accessors is accessing along the concatenated path. */
  lemma {:induction false} AccessCompose(p: seq<string>, q: seq<string>, e: Expr)
    ensures Access(p + q, e) == Access(q, Access(p, e))
  {
    if q == [] {
      assert p + q == p;
    } else {
      assert (p + q)[..|p + q| - 1] == p + q[..|q| - 1];
      AccessCompose(p, q[..|q| - 1], e);
    }
  }

  /** The variable-name suffix of a member chain: `_` before each member name,
      outermost member last, stopping at the first node that is not a member access. */
  function MemberChainName(e: Expr): string
  {
    if e.Member? then MemberChainName(e.parent) + "_" + e.name else ""
  }

  function Underscored(path: seq<string>): string
  {
    if path == [] then "" else Underscored(path[..|path| - 1]) + "_" + path[|path| - 1]
  }

  /** Reading back the chain of an accessed reference gives the `_`-joined path. */
  lemma {:induction false} ChainOfAccess(path: seq<string>, root: string)
    ensures MemberChainName(Access(path, Ref(root))) == Underscored(path)
  {
    if path != [] {
      ChainOfAccess(path[..|path| - 1], root);
    }
  }

  /** The names an expression reads through reference expressions. */
  function Refs(e: Expr): set<string>
    decreases e
  {
    match e
    case Ref(name) => {name}
    case Member(parent, _) => Refs(parent)
    case StrongCast(x, _) => Refs(x)
    case Binary(_, a, b) => Refs(a) + Refs(b)
    case Call(callee, arguments) => Refs(callee) + RefsAll(arguments)
    case OrderedLambda(body) => Refs(body)
    case _ => {}
  }

  function RefsAll(es: seq<Expr>): set<string>
    decreases es
  {
    if es == [] then {} else Refs(es[0]) + RefsAll(es[1..])
  }

  /** An accessor applied to a reference reads that reference and nothing else. */
  lemma {:induction false} RefsOfAccess(path: seq<string>, root: string)
    ensures Refs(Access(path, Ref(root))) == {root}
  {
    if path != [] {
      RefsOfAccess(path[..|path| - 1], root);
    }
  }
}
