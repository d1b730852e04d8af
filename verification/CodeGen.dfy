/// Lowering of an AST to pseudo-assembly lines (the `generateCode()`
/// methods of CodeGenerator.java).
module CodeGen {
  import opened Decimal
  import opened Ast

  // The instruction lines the generator emits.

  /// Load a literal into the accumulator.
  function LoadConst(v: Int32): string { "mov eax, " + IntToString(v) }
  /// Load a variable into the accumulator.
  function LoadVar(name: string): string { "mov eax, " + name }
  /// Store the accumulator into a variable.
  function Store(name: string): string { "mov " + name + ", eax" }
  const Push: string := "push eax"
  const Pop: string := "pop ebx"
  /// Start-of-loop label definition.
  function StartLabel(labelNo: Int32): string { "debut_while_" + IntToString(labelNo) + ":" }
  /// Exit the loop when the accumulator is zero.
  function ExitJump(labelNo: Int32): string { "jz sortie_while_" + IntToString(labelNo) }
  /// Jump back to the start of the loop.
  function BackJump(labelNo: Int32): string { "jmp debut_while_" + IntToString(labelNo) }
  /// End-of-loop label definition.
  function EndLabel(labelNo: Int32): string { "sortie_while_" + IntToString(labelNo) + ":" }

  /// The operator tags the `switch` of `BinaryOpNode.generateCode` handles.
  predicate IsSupported(op: string)
  {
    op == "+" || op == "-" || op == "*" || op == "/" || op == "mod"
  }

  /// The lines appended after `pop ebx` for an operator tag. The switch has
  /// no default case, so any other tag appends nothing.
  function OperatorTail(op: string): (tail: seq<string>)
    ensures tail == [] <==> !IsSupported(op)
    ensures Push !in tail && Pop !in tail
  {
    match op
    case "+" => ["add eax, ebx"]
    case "-" => ["sub eax, ebx"]
    case "*" => ["mul eax, ebx"]
    case "/" => ["mov ecx, eax", "div ebx", "mov eax, ecx"]
    case "mod" => ["mov ecx, eax", "div ebx", "mul ecx, ebx", "sub eax, ecx"]
    case _ => []
  }

  /// The instruction list produced for a node.
  function Generate(n: Node): (code: seq<string>)
  {
    match n
    case Number(v) => [LoadConst(v)]
    case Variable(name) => [LoadVar(name)]
    case BinaryOp(op, l, r) => Generate(l) + [Push] + Generate(r) + [Pop] + OperatorTail(op)
    case Let(name, v) => Generate(v) + [Store(name)]
    case While(c, b, labelNo) =>
      [StartLabel(labelNo)] + Generate(c) + [ExitJump(labelNo)] + Generate(b)
      + [BackJump(labelNo)] + [EndLabel(labelNo)]
  }

  /// `generateCode()` as the Java code runs it: a fresh list filled by
  /// successive `add` and `addAll` calls. It has no `modifies` clause, so
  /// generating code changes neither the nodes nor the label counter.
  method GenerateCode(n: Node) returns (code: seq<string>)
    ensures code == Generate(n)
    decreases n
  {
    match n {
      case Number(v) =>
        code := [LoadConst(v)];
      case Variable(name) =>
        code := [LoadVar(name)];
      case BinaryOp(op, l, r) =>
        code := [];
        var left := GenerateCode(l);
        code := code + left;
        assert code == left;
        code := code + [Push];
        var right := GenerateCode(r);
        code := code + right;
        code := code + [Pop];
        code := AppendOperatorTail(code, op);
      case Let(name, v) =>
        code := [];
        var value := GenerateCode(v);
        code := code + value;
        assert code == value;
        code := code + [Store(name)];
      case While(c, b, labelNo) =>
        code := [];
        code := code + [StartLabel(labelNo)];
        assert code == [StartLabel(labelNo)];
        var cond := GenerateCode(c);
        code := code + cond;
        code := code + [ExitJump(labelNo)];
        var body := GenerateCode(b);
        code := code + body;
        code := code + [BackJump(labelNo)];
        code := code + [EndLabel(labelNo)];
    }
  }

  /// The `switch (op)` of `BinaryOpNode.generateCode`, appending to the list
  /// under construction.
  method AppendOperatorTail(code: seq<string>, op: string) returns (out: seq<string>)
    ensures out == code + OperatorTail(op)
  {
    out := code;
    match op {
      case "+" => out := out + ["add eax, ebx"];
      case "-" => out := out + ["sub eax, ebx"];
      case "*" => out := out + ["mul eax, ebx"];
      case "/" =>
        out := out + ["mov ecx, eax"];
        out := out + ["div ebx"];
        out := out + ["mov eax, ecx"];
      case "mod" =>
        out := out + ["mov ecx, eax"];
        out := out + ["div ebx"];
        out := out + ["mul ecx, ebx"];
        out := out + ["sub eax, ecx"];
      case _ =>
    }
  }

  // Shape of the output, node kind by node kind.

  /// Where the pieces of `[w] + a + [x] + b + [y] + [z]` sit.
  lemma Framed<T>(w: T, a: seq<T>, x: T, b: seq<T>, y: T, z: T)
    ensures var s := [w] + a + [x] + b + [y] + [z];
      && |s| == |a| + |b| + 4
      && s[0] == w
      && s[1..1 + |a|] == a
      && s[1 + |a|] == x
      && s[2 + |a|..2 + |a| + |b|] == b
      && s[2 + |a| + |b|] == y
      && s[3 + |a| + |b|] == z
  {
  }

  /// Where the pieces of `a + [x] + b + [y] + c` sit.
  lemma Bracketed<T>(a: seq<T>, x: T, b: seq<T>, y: T, c: seq<T>)
    ensures var s := a + [x] + b + [y] + c;
      && |s| == |a| + |b| + |c| + 2
      && s[..|a|] == a
      && s[|a|] == x
      && s[|a| + 1..|a| + 1 + |b|] == b
      && s[|a| + 1 + |b|] == y
      && s[|a| + 2 + |b|..] == c
  {
  }

  lemma NumberShape(v: Int32)
    ensures Generate(Number(v)) == [LoadConst(v)]
  {
  }

  lemma VariableShape(name: string)
    ensures Generate(Variable(name)) == [LoadVar(name)]
  {
  }

  /// The left operand's code comes first and whole, then `push eax`, then the
  /// right operand's code, then `pop ebx`, then the operator's lines.
  lemma BinaryOpShape(op: string, l: Node, r: Node)
    ensures var code, gl, gr := Generate(BinaryOp(op, l, r)), Generate(l), Generate(r);
      && |code| == |gl| + |gr| + 2 + |OperatorTail(op)|
      && code[..|gl|] == gl
      && code[|gl|] == Push
      && code[|gl| + 1..|gl| + 1 + |gr|] == gr
      && code[|gl| + 1 + |gr|] == Pop
      && code[|gl| + 2 + |gr|..] == OperatorTail(op)
  {
    Bracketed(Generate(l), Push, Generate(r), Pop, OperatorTail(op));
  }

  /// Tail lengths: one line for `+`, `-`, `*`; three for `/`; four for
  /// `mod`; none for any other tag.
  lemma OperatorTailLength(op: string)
    ensures op == "+" || op == "-" || op == "*" ==> |OperatorTail(op)| == 1
    ensures op == "/" ==> |OperatorTail(op)| == 3
    ensures op == "mod" ==> |OperatorTail(op)| == 4
    ensures !IsSupported(op) ==> |OperatorTail(op)| == 0
  {
  }

  /// An unsupported tag (such as `>`) leaves only the operand evaluation:
  /// the code ends with `pop ebx` and holds no arithmetic line.
  lemma UnsupportedOperator(op: string, l: Node, r: Node)
    requires !IsSupported(op)
    ensures var code := Generate(BinaryOp(op, l, r));
      && code == Generate(l) + [Push] + Generate(r) + [Pop]
      && code[|code| - 1] == Pop
  {
  }

  /// The value's code comes first and whole; the store line is last.
  lemma LetShape(name: string, v: Node)
    ensures var code, gv := Generate(Let(name, v)), Generate(v);
      && |code| == |gv| + 1
      && code[..|gv|] == gv
      && code[|gv|] == Store(name)
  {
  }

  /// Start label, condition, exit jump, body, back jump, end label.
  lemma WhileShape(c: Node, b: Node, labelNo: Int32)
    ensures var code, gc, gb := Generate(While(c, b, labelNo)), Generate(c), Generate(b);
      && |code| == |gc| + |gb| + 4
      && code[0] == StartLabel(labelNo)
      && code[1..1 + |gc|] == gc
      && code[1 + |gc|] == ExitJump(labelNo)
      && code[2 + |gc|..2 + |gc| + |gb|] == gb
      && code[2 + |gc| + |gb|] == BackJump(labelNo)
      && code[3 + |gc| + |gb|] == EndLabel(labelNo)
  {
    assert Generate(While(c, b, labelNo))
        == [StartLabel(labelNo)] + Generate(c) + [ExitJump(labelNo)] + Generate(b) + [BackJump(labelNo)] + [EndLabel(labelNo)];
    Framed(StartLabel(labelNo), Generate(c), ExitJump(labelNo), Generate(b), BackJump(labelNo), EndLabel(labelNo));
  }

  /// `let n = 2 + 3`: load 2, push, load 3, pop, add, store into `n`.
  lemma LetSumExample()
    ensures Generate(Let("n", BinaryOp("+", Number(2), Number(3))))
         == ["mov eax, 2", "push eax", "mov eax, 3", "pop ebx", "add eax, ebx", "mov n, eax"]
  {
    assert NatToString(2) == [DigitChar(2)] == "2";
    assert NatToString(3) == [DigitChar(3)] == "3";
    assert LoadConst(2) == "mov eax, 2";
    assert LoadConst(3) == "mov eax, 3";
    assert Store("n") == "mov n, eax";
  }
}
