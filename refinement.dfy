/**
 * The element selection for the one-off local refinement of `joule_solve`:
 * with `amr == 1`, every element whose attribute is 1 (the metal region)
 * is appended to the list handed to the refiner.
 */
module Refinement {
  import opened Wrappers

  /** Each element of `s` is smaller than the next. */
  predicate StrictlyIncreasing(s: seq<nat>)
  {
    forall i, j :: 0 <= i < j < |s| ==> s[i] < s[j]
  }

  /** Element `e` of a mesh with the given attributes is in the metal region. */
  predicate Marked(attributes: seq<int>, e: nat)
  {
    e < |attributes| && attributes[e] == 1
  }

  /**
   * The selection loop. `attributes[e]` is the attribute of element `e`,
   * so `|attributes|` is the element count. `None` means no refinement is
   * requested at all (`amr != 1`); otherwise the list holds exactly the
   * marked elements, in increasing order and without repetition.
   */
  method SelectElements(amr: int, attributes: seq<int>) returns (refList: Option<seq<nat>>)
    ensures refList.None? <==> amr != 1
    ensures refList.Some? ==> forall e: nat :: e in refList.value <==> Marked(attributes, e)
    ensures refList.Some? ==> StrictlyIncreasing(refList.value)
  {
    if amr != 1 {
      return None;
    }
    var list: seq<nat> := [];
    var numElems := |attributes|;
    for ielem := 0 to numElems
      invariant forall e: nat :: e in list <==> e < ielem && Marked(attributes, e)
      invariant StrictlyIncreasing(list)
      invariant forall i :: 0 <= i < |list| ==> list[i] < ielem
    {
      var thisAtt := attributes[ielem];
      if thisAtt == 1 {
        list := list + [ielem];
      }
    }
    refList := Some(list);
  }

  /** The head of an increasing list is its least element and is not repeated in its tail. */
  lemma HeadIsLeast(a: seq<nat>)
    requires StrictlyIncreasing(a) && a != []
    ensures forall x :: x in a ==> a[0] <= x
    ensures forall x :: x in a[1..] <==> x in a && x != a[0]
  {
    forall x | x in a
      ensures a[0] <= x
    {
      var i :| 0 <= i < |a| && a[i] == x;
    }
    forall x
      ensures x in a[1..] <==> x in a && x != a[0]
    {
      if x in a && x != a[0] {
        var i :| 0 <= i < |a| && a[i] == x;
        assert a[1..][i - 1] == x;
      }
    }
  }

  /**
   * The contract of SelectElements determines the list: two increasing
   * lists with the same elements are equal.
   */
  lemma {:induction false} IncreasingListUnique(a: seq<nat>, b: seq<nat>)
    requires StrictlyIncreasing(a) && StrictlyIncreasing(b)
    requires forall x :: x in a <==> x in b
    ensures a == b
  {
    if b != [] {
      assert b[0] in a;
    }
    if a != [] {
      assert a[0] in b;
      HeadIsLeast(a);
      HeadIsLeast(b);
      assert b[0] in a;
      assert a[0] == b[0];
      IncreasingListUnique(a[1..], b[1..]);
      assert a == [a[0]] + a[1..];
      assert b == [b[0]] + b[1..];
    }
  }
}
