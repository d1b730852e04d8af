/// The generated code uses the stack in a nested way: `push eax` and
/// `pop ebx` come in matched pairs, and no `pop ebx` runs on an empty stack.
/// This is what lets the `pop ebx` of a binary operation retrieve the left
/// operand that its own `push eax` saved.
module StackDiscipline {
  import opened Decimal
  import opened Ast
  import opened CodeGen

  /// What one line does to the stack height.
  function StackEffect(line: string): int
  {
    if line == Push then 1 else if line == Pop then -1 else 0
  }

  /// Stack height after running the lines in order from an empty stack.
  function Depth(code: seq<string>): int
  {
    if code == [] then 0 else StackEffect(code[0]) + Depth(code[1..])
  }

  /// Balanced overall, and never below the starting height.
  predicate WellNested(code: seq<string>)
  {
    Depth(code) == 0 && forall k :: 0 <= k <= |code| ==> Depth(code[..k]) >= 0
  }

  lemma {:induction false} DepthAppend(a: seq<string>, b: seq<string>)
    ensures Depth(a + b) == Depth(a) + Depth(b)
  {
    if a != [] {
      assert (a + b)[1..] == a[1..] + b;
      DepthAppend(a[1..], b);
    } else {
      assert a + b == b;
    }
  }

  /// Lines that neither push nor pop leave the height unchanged at every point.
  lemma {:induction false} NeutralNested(code: seq<string>)
    requires Push !in code && Pop !in code
    ensures WellNested(code)
  {
    if code != [] {
      NeutralNested(code[1..]);
      forall k | 0 <= k <= |code| ensures Depth(code[..k]) >= 0 {
        if k > 0 {
          assert code[..k][1..] == code[1..][..k - 1];
        }
      }
    }
  }

  lemma ConcatNested(a: seq<string>, b: seq<string>)
    requires WellNested(a) && WellNested(b)
    ensures WellNested(a + b)
  {
    DepthAppend(a, b);
    forall k | 0 <= k <= |a + b| ensures Depth((a + b)[..k]) >= 0 {
      if k <= |a| {
        assert (a + b)[..k] == a[..k];
      } else {
        assert (a + b)[..k] == a + b[..k - |a|];
        DepthAppend(a, b[..k - |a|]);
      }
    }
  }

  /// Saving before and restoring after a well-nested block stays well nested.
  lemma Enclosed(a: seq<string>)
    requires WellNested(a)
    ensures WellNested([Push] + a + [Pop])
  {
    var s := [Push] + a + [Pop];
    DepthAppend([Push] + a, [Pop]);
    DepthAppend([Push], a);
    forall k | 0 <= k <= |s| ensures Depth(s[..k]) >= 0 {
      if 0 < k <= |a| + 1 {
        assert s[..k] == [Push] + a[..k - 1];
        DepthAppend([Push], a[..k - 1]);
      } else if k == |s| {
        assert s[..k] == s;
      }
    }
  }

  lemma LineNeutral(line: string)
    requires |line| > 0 && line[0] != 'p'
    ensures WellNested([line])
  {
  }

  /// Every generated instruction list is well nested.
  lemma {:induction false} GenerateWellNested(n: Node)
    ensures WellNested(Generate(n))
  {
    match n
    case Number(v) =>
      LineNeutral(LoadConst(v));
    case Variable(name) =>
      LineNeutral(LoadVar(name));
    case BinaryOp(op, l, r) =>
      var gl, gr := Generate(l), Generate(r);
      GenerateWellNested(l);
      GenerateWellNested(r);
      Enclosed(gr);
      ConcatNested(gl, [Push] + gr + [Pop]);
      NeutralNested(OperatorTail(op));
      ConcatNested(gl + ([Push] + gr + [Pop]), OperatorTail(op));
      assert Generate(n) == gl + ([Push] + gr + [Pop]) + OperatorTail(op);
    case Let(name, v) =>
      GenerateWellNested(v);
      LineNeutral(Store(name));
      ConcatNested(Generate(v), [Store(name)]);
    case While(c, b, labelNo) =>
      var gc, gb := Generate(c), Generate(b);
      GenerateWellNested(c);
      GenerateWellNested(b);
      LineNeutral(StartLabel(labelNo));
      LineNeutral(ExitJump(labelNo));
      LineNeutral(BackJump(labelNo));
      LineNeutral(EndLabel(labelNo));
      ConcatNested([StartLabel(labelNo)], gc);
      ConcatNested([StartLabel(labelNo)] + gc, [ExitJump(labelNo)]);
      ConcatNested([StartLabel(labelNo)] + gc + [ExitJump(labelNo)], gb);
      ConcatNested([StartLabel(labelNo)] + gc + [ExitJump(labelNo)] + gb, [BackJump(labelNo)]);
      ConcatNested([StartLabel(labelNo)] + gc + [ExitJump(labelNo)] + gb + [BackJump(labelNo)], [EndLabel(labelNo)]);
  }
}
