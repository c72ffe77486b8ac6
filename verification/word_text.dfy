/**
 * `getWordText`: the text of a Word document element. A container contributes the text of its
 * children in order, a Text element its own text, and any other element nothing.
 */
module WordText {
  import opened Common

  /** A PhpWord element: a container (section, text run, cell, ...), a Text, or anything else. */
  datatype Element =
    | Container(children: seq<Element>)
    | Text(text: string)
    | Other

  /** The Text leaves under an element, depth first, left to right. */
  function Leaves(e: Element): seq<string>
    decreases e, 1
  {
    match e
    case Container(children) => LeavesOf(children)
    case Text(t) => [t]
    case Other => []
  }

  /** The Text leaves under a list of sibling elements, in order. */
  function LeavesOf(elements: seq<Element>): seq<string>
    decreases elements, 0
  {
    if elements == [] then []
    else LeavesOf(elements[..|elements| - 1]) + Leaves(elements[|elements| - 1])
  }

  /** The recursive walk with its `.=` accumulator: the concatenation of all Text leaves, depth first. */
  method GetWordText(e: Element) returns (result: string)
    ensures result == Concat(Leaves(e))
    decreases e
  {
    result := "";
    match e {
      case Container(children) =>
        var i := 0;
        while i < |children|
          invariant 0 <= i <= |children|
          invariant result == Concat(LeavesOf(children[..i]))
        {
          var part := GetWordText(children[i]);
          assert children[..i + 1][..i] == children[..i];
          ConcatAppend(LeavesOf(children[..i]), Leaves(children[i]));
          result := result + part;
          i := i + 1;
        }
        assert children[..|children|] == children;
      case Text(t) =>
        result := result + t;
        assert Concat([t]) == t + Concat([]);
      case Other =>
    }
  }

  /** The text of an element: its Text leaves concatenated. */
  function TextOf(e: Element): string
  {
    Concat(Leaves(e))
  }

  lemma {:induction false} LeavesOfAppend(a: seq<Element>, b: seq<Element>)
    ensures LeavesOf(a + b) == LeavesOf(a) + LeavesOf(b)
    decreases |b|
  {
    if b == [] {
      assert a + b == a;
    } else {
      assert (a + b)[..|a + b| - 1] == a + b[..|b| - 1];
      LeavesOfAppend(a, b[..|b| - 1]);
    }
  }

  /**
   * The text of a container is compositional: the text of a container of `a + b` is the text of a
   * container of `a` followed by that of a container of `b`, and wrapping one element in a
   * container does not change its text.
   */
  lemma ContainerText(a: seq<Element>, b: seq<Element>, e: Element)
    ensures TextOf(Container(a + b)) == TextOf(Container(a)) + TextOf(Container(b))
    ensures TextOf(Container([e])) == TextOf(e)
  {
    LeavesOfAppend(a, b);
    ConcatAppend(LeavesOf(a), LeavesOf(b));
    assert [e][..0] == [];
    assert LeavesOf([e]) == LeavesOf([]) + Leaves(e);
    assert [] + Leaves(e) == Leaves(e);
  }
}
