/// The static `labelCount` of `WhileNode`: every loop construction takes the
/// current value as its label and increments the counter (a Java `int`, so
/// the increment wraps from 2^31 - 1 to -2^31).
module WhileLabels {
  import opened Decimal
  import opened Ast

  /// The label the `k`-th loop constructed (counting from 0) receives.
  function IssuedLabel(k: nat): (l: Int32)
    ensures k <= MaxInt32 ==> l == k
  {
    Wrap32(k)
  }

  /// The first 2^32 loops all receive different labels.
  lemma IssuedLabelsDistinct(i: nat, j: nat)
    requires i < j < TWO32
    ensures IssuedLabel(i) != IssuedLabel(j)
  {
    WrapDistinct(i, j);
  }

  /// No label issued so far equals the next one.
  lemma NextNotIssued(issued: seq<Int32>, x: Int32)
    requires |issued| < TWO32
    requires forall k :: 0 <= k < |issued| ==> issued[k] == IssuedLabel(k)
    requires x in issued
    ensures x != IssuedLabel(|issued|)
  {
    var k :| 0 <= k < |issued| && issued[k] == x;
    IssuedLabelsDistinct(k, |issued|);
  }

  lemma DistinctCons(x: Int32, rest: seq<Int32>)
    requires Distinct(rest) && x !in rest
    ensures Distinct([x] + rest)
  {
    var ls := [x] + rest;
    forall i, j | 0 <= i < j < |ls| ensures ls[i] != ls[j] {
      assert ls[j] == rest[j - 1];
      if i > 0 {
        assert ls[i] == rest[i - 1];
      }
    }
  }

  /// A loop built with the next label of a counter that has issued every label
  /// of its condition and body, when those are distinct among themselves,
  /// has distinct labels: the new label is none of the issued ones.
  lemma FreshLoopDistinct(issued: seq<Int32>, c: Node, b: Node)
    requires |issued| < TWO32
    requires forall k :: 0 <= k < |issued| ==> issued[k] == IssuedLabel(k)
    requires Distinct(Labels(c) + Labels(b))
    requires forall x :: x in Labels(c) + Labels(b) ==> x in issued
    ensures DistinctLabels(While(c, b, IssuedLabel(|issued|)))
  {
    var newLabel, rest := IssuedLabel(|issued|), Labels(c) + Labels(b);
    if newLabel in rest {
      NextNotIssued(issued, newLabel);
    }
    DistinctCons(newLabel, rest);
    assert Labels(While(c, b, newLabel)) == [newLabel] + rest;
  }

  /// One increment: the next label is one more, except after the largest
  /// `int`, where it wraps to the smallest.
  lemma NextLabel(x: Int32)
    ensures x < MaxInt32 ==> Wrap32(x + 1) == x + 1
    ensures x == MaxInt32 ==> Wrap32(x + 1) == MinInt32
  {
  }

  /// The process-wide label counter shared by all loop constructions.
  class WhileLabelCounter {
    var labelCount: Int32
    /// The labels handed out so far, oldest first.
    ghost var issued: seq<Int32>

    ghost predicate Valid()
      reads this
    {
      && labelCount == IssuedLabel(|issued|)
      && forall k :: 0 <= k < |issued| ==> issued[k] == IssuedLabel(k)
    }

    /// Class initialisation: `static int labelCount = 0`.
    constructor ()
      ensures Valid() && issued == [] && labelCount == 0
    {
      labelCount := 0;
      issued := [];
    }

    /// `new WhileNode(condition, body)`: the node gets the current counter
    /// value as its label, and the counter moves on by one.
    method NewWhile(condition: Node, body: Node) returns (w: Node)
      requires Valid()
      modifies this
      ensures Valid()
      ensures w == While(condition, body, old(labelCount))
      ensures labelCount == Wrap32(old(labelCount) + 1)
      ensures issued == old(issued) + [w.labelNo]
      ensures |old(issued)| < TWO32 ==> w.labelNo !in old(issued)
      ensures && |old(issued)| < TWO32
              && Distinct(Labels(condition) + Labels(body))
              && (forall x :: x in Labels(condition) + Labels(body) ==> x in old(issued))
              ==> DistinctLabels(w)
    {
      if |issued| < TWO32 && Distinct(Labels(condition) + Labels(body))
         && (forall x :: x in Labels(condition) + Labels(body) ==> x in issued) {
        FreshLoopDistinct(issued, condition, body);
      }
      w := While(condition, body, labelCount);
      WrapSucc(|issued|);
      labelCount := Wrap32(labelCount + 1);
      if |issued| < TWO32 {
        forall k | 0 <= k < |issued| ensures issued[k] != w.labelNo {
          IssuedLabelsDistinct(k, |issued|);
        }
      }
      issued := issued + [w.labelNo];
    }
  }

  /// Two loops constructed one after the other get consecutive, distinct
  /// labels.
  method ConstructTwo(counter: WhileLabelCounter, c1: Node, b1: Node, c2: Node, b2: Node)
    returns (w1: Node, w2: Node)
    requires counter.Valid()
    modifies counter
    ensures counter.Valid()
    ensures w1 == While(c1, b1, old(counter.labelCount))
    ensures w2 == While(c2, b2, Wrap32(w1.labelNo + 1))
    ensures w1.labelNo != w2.labelNo
    ensures counter.labelCount == Wrap32(old(counter.labelCount) + 2)
    ensures counter.issued == old(counter.issued) + [w1.labelNo, w2.labelNo]
  {
    w1 := counter.NewWhile(c1, b1);
    w2 := counter.NewWhile(c2, b2);
    WrapDistinct(w1.labelNo, w1.labelNo + 1);
    WrapSucc(old(counter.labelCount) + 1);
  }
}
