/** The derivation tree a generation builds, its leaf tokens, and its
    indented text rendering. */
module Derivations {
  import opened Text

  /** A node is a leaf exactly when `token` is set. */
  datatype DerivationNode = DerivationNode(symbol: string, children: seq<DerivationNode>, token: Option<string>)

  /** The tokens of the leaves, left to right. */
  function Leaves(n: DerivationNode): seq<string>
    decreases n
  {
    if n.token.Some? then [n.token.value] else LeavesOf(n.children)
  }

  function LeavesOf(ns: seq<DerivationNode>): seq<string>
    decreases ns
  {
    if |ns| == 0 then [] else Leaves(ns[0]) + LeavesOf(ns[1..])
  }

  lemma LeavesOfCons(n: DerivationNode, ns: seq<DerivationNode>)
    ensures LeavesOf([n] + ns) == Leaves(n) + LeavesOf(ns)
  {
    assert ([n] + ns)[1..] == ns;
  }

  /** The number of nodes the printer shows: a leaf's children are never visited. */
  function Size(n: DerivationNode): nat
    decreases n
  {
    if n.token.Some? then 1 else 1 + SizeOf(n.children)
  }

  function SizeOf(ns: seq<DerivationNode>): nat
    decreases ns
  {
    if |ns| == 0 then 0 else Size(ns[0]) + SizeOf(ns[1..])
  }

  /** `"  " * depth`. */
  function Pad(depth: nat): (r: string)
    ensures |r| == 2 * depth
  {
    if depth == 0 then "" else "  " + Pad(depth - 1)
  }

  /** What one line shows of a node: `SYMBOL → 'token'` for a leaf, the bare
      symbol otherwise. */
  function Label(n: DerivationNode): string {
    if n.token.Some? then n.symbol + " \U{2192} '" + n.token.value + "'" else n.symbol
  }

  /** The pretty printer: one line per node, two spaces of indentation per
      level, children after their parent. */
  function Pretty(n: DerivationNode, indent: nat): string
    decreases n
  {
    if n.token.Some? then Pad(indent) + n.symbol + " \U{2192} '" + n.token.value + "'\n"
    else Pad(indent) + n.symbol + "\n" + PrettyOf(n.children, indent + 1)
  }

  function PrettyOf(ns: seq<DerivationNode>, indent: nat): string
    decreases ns
  {
    if |ns| == 0 then "" else Pretty(ns[0], indent) + PrettyOf(ns[1..], indent)
  }

  /** A reference listing of the tree: its nodes in pre-order, each with its depth. */
  datatype Line = Line(depth: nat, text: string)

  function Lines(n: DerivationNode, depth: nat): (r: seq<Line>)
    ensures |r| == Size(n)
    ensures r[0] == Line(depth, Label(n))
    ensures forall i :: 0 <= i < |r| ==> r[i].depth >= depth
    decreases n
  {
    if n.token.Some? then [Line(depth, Label(n))]
    else [Line(depth, Label(n))] + LinesOf(n.children, depth + 1)
  }

  function LinesOf(ns: seq<DerivationNode>, depth: nat): (r: seq<Line>)
    ensures |r| == SizeOf(ns)
    ensures forall i :: 0 <= i < |r| ==> r[i].depth >= depth
    decreases ns
  {
    if |ns| == 0 then [] else Lines(ns[0], depth) + LinesOf(ns[1..], depth)
  }

  function Render(lines: seq<Line>): string {
    if |lines| == 0 then "" else Pad(lines[0].depth) + lines[0].text + "\n" + Render(lines[1..])
  }

  lemma {:induction false} RenderAppend(a: seq<Line>, b: seq<Line>)
    ensures Render(a + b) == Render(a) + Render(b)
  {
    if |a| > 0 {
      assert (a + b)[0] == a[0];
      assert (a + b)[1..] == a[1..] + b;
      RenderAppend(a[1..], b);
    } else {
      assert a + b == b;
    }
  }

  /** The pretty printer renders exactly the pre-order listing, one line per node. */
  lemma {:induction false} PrettyRendersLines(n: DerivationNode, indent: nat)
    ensures Pretty(n, indent) == Render(Lines(n, indent))
    decreases n
  {
    if n.token.None? {
      PrettyOfRendersLines(n.children, indent + 1);
      RenderAppend([Line(indent, Label(n))], LinesOf(n.children, indent + 1));
    }
  }

  lemma {:induction false} PrettyOfRendersLines(ns: seq<DerivationNode>, indent: nat)
    ensures PrettyOf(ns, indent) == Render(LinesOf(ns, indent))
    decreases ns
  {
    if |ns| > 0 {
      PrettyRendersLines(ns[0], indent);
      PrettyOfRendersLines(ns[1..], indent);
      RenderAppend(Lines(ns[0], indent), LinesOf(ns[1..], indent));
    }
  }

  /** At indentation zero the rendering opens with the root's symbol. */
  lemma PrettyStartsWithRoot(n: DerivationNode)
    ensures n.symbol <= Pretty(n, 0)
  {
  }
}
