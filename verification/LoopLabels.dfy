/// The label lines of the generated code come from the loops of the tree,
/// one of each kind per loop: every jump has its target label, and when the
/// loops carry distinct labels every label is defined exactly once. Building
/// a loop with the shared counter keeps the labels distinct
/// (`WhileLabels.FreshLoopDistinct`).
module LoopLabels {
  import opened Decimal
  import opened Ast
  import opened CodeGen

  /// The text between a fixed prefix and a fixed suffix.
  lemma Infix<T>(p: seq<T>, x: seq<T>, q: seq<T>)
    ensures (p + x + q)[|p|..|p| + |x|] == x
  {
  }

  /// The four lines a loop emits that carry its label.
  datatype LabelLineKind = Start | Exit | Back | End

  function LabelLine(kind: LabelLineKind, l: Int32): string
  {
    match kind
    case Start => StartLabel(l)
    case Exit => ExitJump(l)
    case Back => BackJump(l)
    case End => EndLabel(l)
  }

  /// The first two characters tell the kinds apart: `de`, `jz`, `jm`, `so`.
  function KindPrefix(kind: LabelLineKind): string
  {
    match kind
    case Start => "de"
    case Exit => "jz"
    case Back => "jm"
    case End => "so"
  }

  lemma LabelLinePrefix(kind: LabelLineKind, l: Int32)
    ensures |LabelLine(kind, l)| >= 2 && LabelLine(kind, l)[..2] == KindPrefix(kind)
  {
  }

  /// A label line determines its kind and its label.
  lemma LabelLineInjective(k1: LabelLineKind, a: Int32, k2: LabelLineKind, b: Int32)
    ensures LabelLine(k1, a) == LabelLine(k2, b) <==> k1 == k2 && a == b
  {
    LabelLinePrefix(k1, a);
    LabelLinePrefix(k2, b);
    if LabelLine(k1, a) == LabelLine(k2, b) {
      assert KindPrefix(k1) == KindPrefix(k2);
      var sa, sb := IntToString(a), IntToString(b);
      IntToStringInjective(a, b);
      match k1
      case Start =>
        Infix("debut_while_", sa, ":");
        Infix("debut_while_", sb, ":");
      case Exit =>
        Infix("jz sortie_while_", sa, "");
        Infix("jz sortie_while_", sb, "");
        assert ExitJump(a) == "jz sortie_while_" + sa + "";
        assert ExitJump(b) == "jz sortie_while_" + sb + "";
      case Back =>
        Infix("jmp debut_while_", sa, "");
        Infix("jmp debut_while_", sb, "");
        assert BackJump(a) == "jmp debut_while_" + sa + "";
        assert BackJump(b) == "jmp debut_while_" + sb + "";
      case End =>
        Infix("sortie_while_", sa, ":");
        Infix("sortie_while_", sb, ":");
    }
  }

  /// A line whose first two characters are those of no label line.
  predicate Plain(line: string)
  {
    |line| >= 2 && line[..2] != "de" && line[..2] != "so" && line[..2] != "jz" && line[..2] != "jm"
  }

  lemma PlainIsNoLabelLine(line: string, kind: LabelLineKind, l: Int32)
    requires Plain(line)
    ensures line != LabelLine(kind, l)
  {
    LabelLinePrefix(kind, l);
  }

  /// The lines that carry no label: loads, stores, stack and arithmetic.
  lemma DataLinesPlain(v: Int32, name: string, op: string)
    ensures Plain(LoadConst(v)) && Plain(LoadVar(name)) && Plain(Store(name))
    ensures Plain(Push) && Plain(Pop)
    ensures forall line :: line in OperatorTail(op) ==> Plain(line)
  {
    TailPlain(op);
    assert LoadConst(v)[..2] == "mo";
    assert LoadVar(name)[..2] == "mo";
    assert Store(name)[..2] == "mo";
    assert Push[..2] == "pu";
    assert Pop[..2] == "po";
  }

  lemma TailPlain(op: string)
    ensures forall line :: line in OperatorTail(op) ==> Plain(line)
  {
    assert "add eax, ebx"[..2] == "ad";
    assert "sub eax, ebx"[..2] == "su";
    assert "mul eax, ebx"[..2] == "mu";
    assert "mov ecx, eax"[..2] == "mo";
    assert "div ebx"[..2] == "di";
    assert "mov eax, ecx"[..2] == "mo";
    assert "mul ecx, ebx"[..2] == "mu";
    assert "sub eax, ecx"[..2] == "su";
  }

  /// Occurrences of `t` in `a + [x] + b + [y] + c`.
  lemma CountBracketed<T>(a: seq<T>, x: T, b: seq<T>, y: T, c: seq<T>, t: T)
    ensures multiset(a + [x] + b + [y] + c)[t]
         == multiset(a)[t] + multiset([x])[t] + multiset(b)[t] + multiset([y])[t] + multiset(c)[t]
  {
  }

  /// Occurrences of `t` in `[w] + a + [x] + b + [y] + [z]`.
  lemma CountFramed<T>(w: T, a: seq<T>, x: T, b: seq<T>, y: T, z: T, t: T)
    ensures multiset([w] + a + [x] + b + [y] + [z])[t]
         == multiset([w])[t] + multiset(a)[t] + multiset([x])[t] + multiset(b)[t] + multiset([y])[t] + multiset([z])[t]
  {
  }

  lemma {:induction false} PlainSeqCount(code: seq<string>, kind: LabelLineKind, l: Int32)
    requires forall line :: line in code ==> Plain(line)
    ensures multiset(code)[LabelLine(kind, l)] == 0
  {
    if LabelLine(kind, l) in code {
      PlainIsNoLabelLine(LabelLine(kind, l), kind, l);
    }
  }

  lemma BinaryOpCount(op: string, left: Node, right: Node, kind: LabelLineKind, l: Int32)
    ensures var t := LabelLine(kind, l);
      multiset(Generate(BinaryOp(op, left, right)))[t] == multiset(Generate(left))[t] + multiset(Generate(right))[t]
  {
    var t := LabelLine(kind, l);
    DataLinesPlain(0, "", op);
    PlainIsNoLabelLine(Push, kind, l);
    PlainIsNoLabelLine(Pop, kind, l);
    PlainSeqCount(OperatorTail(op), kind, l);
    CountBracketed(Generate(left), Push, Generate(right), Pop, OperatorTail(op), t);
  }

  lemma WhileCount(c: Node, b: Node, labelNo: Int32, kind: LabelLineKind, l: Int32)
    ensures var t := LabelLine(kind, l);
      multiset(Generate(While(c, b, labelNo)))[t]
      == (if labelNo == l then 1 else 0) + multiset(Generate(c))[t] + multiset(Generate(b))[t]
  {
    var t := LabelLine(kind, l);
    LabelLineInjective(Start, labelNo, kind, l);
    LabelLineInjective(Exit, labelNo, kind, l);
    LabelLineInjective(Back, labelNo, kind, l);
    LabelLineInjective(End, labelNo, kind, l);
    CountFramed(StartLabel(labelNo), Generate(c), ExitJump(labelNo), Generate(b), BackJump(labelNo), EndLabel(labelNo), t);
  }

  /// Each label line of loop `l` occurs in the generated code as often as
  /// `l` labels a loop of the tree. In particular a jump back to a start
  /// label, or an exit to an end label, always has its target in the code.
  lemma {:induction false} LabelLinesFollowLoops(n: Node, kind: LabelLineKind, l: Int32)
    ensures multiset(Generate(n))[LabelLine(kind, l)] == multiset(Labels(n))[l]
  {
    match n
    case Number(v) =>
      DataLinesPlain(v, "", "");
      PlainIsNoLabelLine(LoadConst(v), kind, l);
    case Variable(name) =>
      DataLinesPlain(0, name, "");
      PlainIsNoLabelLine(LoadVar(name), kind, l);
    case BinaryOp(op, left, right) =>
      LabelLinesFollowLoops(left, kind, l);
      LabelLinesFollowLoops(right, kind, l);
      BinaryOpCount(op, left, right, kind, l);
    case Let(name, v) =>
      LabelLinesFollowLoops(v, kind, l);
      DataLinesPlain(0, name, "");
      PlainIsNoLabelLine(Store(name), kind, l);
      assert multiset(Generate(n)) == multiset(Generate(v)) + multiset{Store(name)};
    case While(c, b, labelNo) =>
      LabelLinesFollowLoops(c, kind, l);
      LabelLinesFollowLoops(b, kind, l);
      WhileCount(c, b, labelNo, kind, l);
      assert multiset(Labels(n)) == multiset{labelNo} + multiset(Labels(c)) + multiset(Labels(b));
  }

  /// Every jump in the generated code has its target label in the code.
  lemma JumpTargetsDefined(n: Node, l: Int32)
    ensures BackJump(l) in Generate(n) ==> StartLabel(l) in Generate(n)
    ensures ExitJump(l) in Generate(n) ==> EndLabel(l) in Generate(n)
  {
    LabelLinesFollowLoops(n, Start, l);
    LabelLinesFollowLoops(n, Exit, l);
    LabelLinesFollowLoops(n, Back, l);
    LabelLinesFollowLoops(n, End, l);
  }

  lemma {:induction false} DistinctOccursOnce(s: seq<Int32>, x: Int32)
    requires forall i, j :: 0 <= i < j < |s| ==> s[i] != s[j]
    ensures multiset(s)[x] == if x in s then 1 else 0
  {
    if s != [] {
      DistinctOccursOnce(s[1..], x);
      assert s == [s[0]] + s[1..];
      assert s[0] !in s[1..];
    }
  }

  /// With distinct loop labels, each loop's start label, exit jump, back
  /// jump and end label each occur exactly once, and no label line occurs
  /// for a label that no loop carries.
  lemma DistinctLabelsOnce(n: Node, kind: LabelLineKind, l: Int32)
    requires DistinctLabels(n)
    ensures multiset(Generate(n))[LabelLine(kind, l)] == if l in Labels(n) then 1 else 0
  {
    LabelLinesFollowLoops(n, kind, l);
    DistinctOccursOnce(Labels(n), l);
  }
}
