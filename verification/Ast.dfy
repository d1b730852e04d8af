/// The abstract syntax tree handed to the code generator
/// (`Node` and its five subclasses in CodeGenerator.java).
module Ast {
  import opened Decimal

  /// One constructor per subclass of `Node`. The Java fields are never
  /// written after construction, so a node is a value; the only state a
  /// construction touches is the shared loop-label counter (see
  /// `WhileLabels`), whose value is recorded in `While.labelNo`.
  datatype Node =
    | Number(value: Int32)
    | Variable(name: string)
    | BinaryOp(op: string, left: Node, right: Node)
    | Let(name: string, bound: Node)
    | While(condition: Node, body: Node, labelNo: Int32)

  /// The labels of the loops of a tree, in the order their code is emitted
  /// (a loop before its condition, the condition before the body, the left
  /// operand before the right one).
  function Labels(n: Node): (ls: seq<Int32>)
    ensures n.While? ==> |ls| >= 1 && ls[0] == n.labelNo
    ensures n.Number? || n.Variable? ==> ls == []
  {
    match n
    case Number(_) => []
    case Variable(_) => []
    case BinaryOp(_, l, r) => Labels(l) + Labels(r)
    case Let(_, v) => Labels(v)
    case While(c, b, labelNo) => [labelNo] + Labels(c) + Labels(b)
  }

  /// No label occurs twice in the sequence.
  predicate Distinct(ls: seq<Int32>)
  {
    forall i, j :: 0 <= i < j < |ls| ==> ls[i] != ls[j]
  }

  /// No loop label occurs twice in the tree. `WhileLabels.FreshLoopDistinct`
  /// shows that building a loop with the shared counter keeps this.
  predicate DistinctLabels(n: Node)
  {
    Distinct(Labels(n))
  }
}
