/**
 The part of sqlparser's AST the rewrite rules look at.  A node is a kind and its children in the
 order the visitor takes them; each kind says what its children are.
 */
module SqlAst {
  import opened Wrappers

  datatype Literal = Null | Number(digits: string) | Text(text: string) | Placeholder(id: string)

  datatype Operator =
    | Eq | NotEq
    | RegexMatch | RegexIMatch | RegexNotMatch | RegexNotIMatch
    | Custom(path: seq<string>)  // OPERATOR(schema.name)
    | OtherOperator(symbol: string)

  datatype Kind =
    // expressions
    | Value(literal: Literal)
    | Identifier(name: string)
    | CompoundIdentifier(parts: seq<string>)
    | AnyOp(op: Operator)                       // left, right
    | AllOp(op: Operator)                       // left, right
    | Not                                       // operand
    | BinaryOp(op: Operator)                    // left, right
    | Function(name: string)                    // arguments
    | ArrayLiteral                              // elements
    | Cast(dataType: string)                    // operand
    | Collate(collation: string)                // operand
    | OtherExpr(tag: string)                    // operands; any expression no rule looks at
    | Subquery                                  // query
    // queries
    | Query(limited: bool, fetched: bool)       // body, then the LIMIT and FETCH expressions present
    | Select                                    // projection, from, then WHERE and inner JOIN conditions
    | SetOperation(name: string)                // left, right
    | Projection                                // items and wildcards
    | Item(alias: Option<string>)               // expression
    | Wildcard
    | From                                      // the relations of the FROM items and their joins
    | Table(path: seq<string>, alias: Option<string>)
    | Derived(alias: Option<string>)            // query

  datatype Node = Node(kind: Kind, kids: seq<Node>)

  function Lit(literal: Literal): Node { Node(Value(literal), []) }
  function Call(name: string, args: seq<Node>): Node { Node(Function(name), args) }
  function Negate(operand: Node): Node { Node(Not, [operand]) }
  function Compare(left: Node, op: Operator, right: Node): Node { Node(BinaryOp(op), [left, right]) }
  function Column(table: string, name: string): Node { Node(CompoundIdentifier([table, name]), []) }
  function Name(name: string): Node { Node(Identifier(name), []) }

  /** `SELECT item FROM relations WHERE condition`. */
  function SelectFrom(item: Node, relations: seq<Node>, condition: Node): Node {
    Node(Query(false, false),
         [Node(Select, [Node(Projection, [Node(Item(None), [item])]), Node(From, relations), condition])])
  }

  /** How many nodes a tree has. */
  function Size(n: Node): nat {
    1 + SizeAll(n.kids)
  }

  function SizeAll(ns: seq<Node>): nat {
    if ns == [] then 0 else Size(ns[0]) + SizeAll(ns[1..])
  }
}
