/**
 * How the linter prints the difference between the declared key order and the sorted one
 * (dns/lint.py lines 11-13 and 28-38).
 *
 * The opcodes come from Python's `difflib.SequenceMatcher`, which is not part of this model:
 * they are an input, assumed to tile both lists (`Tiles`). A printed line is a `Line`, the pair
 * of the prefix it is printed with (`Marker`) and the domain name; ANSI colour codes are dropped.
 */
module Diff {

  /** The tag of a `get_opcodes()` entry. */
  datatype Tag = Equal | Insert | Delete | Replace

  /** `(tag, alo, ahi, blo, bhi)`: `a[alo:ahi]` of the declared list against `b[blo:bhi]` of the sorted one. */
  datatype Opcode = Opcode(tag: Tag, alo: nat, ahi: nat, blo: nat, bhi: nat)

  /** The prefix a diff line is printed with. */
  datatype Marker =
    | Unchanged    // "  "
    | Added        // " +" in green
    | Removed      // " -" in red
    | ReplacedOld  // " *" in red: the declared side of a replaced run
    | ReplacedNew  // " *" in green: the sorted side of a replaced run

  datatype Line = Line(marker: Marker, name: string)

  /** Each name of `names`, in order, printed with marker `m`. */
  function Tagged(m: Marker, names: seq<string>): (r: seq<Line>)
    ensures |r| == |names|
    ensures forall k :: 0 <= k < |r| ==> r[k] == Line(m, names[k])
  {
    if names == [] then [] else [Line(m, names[0])] + Tagged(m, names[1..])
  }

  /**
   * `write_diff(prefix, domain_list, start, end)`: prints `domain_list[i]` for every `i` in
   * `range(start, end)`, so nothing at all when `end <= start`.
   */
  method WriteDiff(m: Marker, list: seq<string>, start: nat, end: nat) returns (lines: seq<Line>)
    requires start < end ==> end <= |list|
    ensures |lines| == if start < end then end - start else 0
    ensures forall k :: 0 <= k < |lines| ==> lines[k] == Line(m, list[start + k])
  {
    lines := [];
    var i := start;
    while i < end
      invariant start <= i && (i <= end || i == start)
      invariant |lines| == i - start
      invariant forall k :: 0 <= k < |lines| ==> lines[k] == Line(m, list[start + k])
    {
      lines := lines + [Line(m, list[i])];
      i := i + 1;
    }
  }

  /** The ranges of `op` lie inside the declared list `a` and the sorted list `b`. */
  predicate InBounds(op: Opcode, a: seq<string>, b: seq<string>) {
    op.alo <= op.ahi <= |a| && op.blo <= op.bhi <= |b|
  }

  /** Every opcode of `ops` lies inside both lists. */
  predicate AllInBounds(ops: seq<Opcode>, a: seq<string>, b: seq<string>) {
    forall k :: 0 <= k < |ops| ==> InBounds(ops[k], a, b)
  }

  /**
   * The lines printed for one opcode whose declared slice is `olds` and sorted slice `news`
   * (the `if`/`elif` chain of lines 30-38).
   */
  function Segment(tag: Tag, olds: seq<string>, news: seq<string>): seq<Line> {
    match tag
    case Insert => Tagged(Added, news)
    case Delete => Tagged(Removed, olds)
    case Equal => Tagged(Unchanged, olds)
    case Replace => Tagged(ReplacedOld, olds) + Tagged(ReplacedNew, news)
  }

  /** The lines printed for one opcode. */
  function RenderOp(op: Opcode, a: seq<string>, b: seq<string>): seq<Line>
    requires InBounds(op, a, b)
  {
    Segment(op.tag, a[op.alo..op.ahi], b[op.blo..op.bhi])
  }

  /** The lines printed for a list of opcodes, in order. */
  function Render(ops: seq<Opcode>, a: seq<string>, b: seq<string>): seq<Line>
    requires AllInBounds(ops, a, b)
  {
    if ops == [] then [] else RenderOp(ops[0], a, b) + Render(ops[1..], a, b)
  }

  lemma {:induction false} RenderAppend(ops: seq<Opcode>, op: Opcode, a: seq<string>, b: seq<string>)
    requires AllInBounds(ops, a, b)
    requires InBounds(op, a, b)
    ensures Render(ops + [op], a, b) == Render(ops, a, b) + RenderOp(op, a, b)
  {
    if ops == [] {
      assert ops + [op] == [op];
      assert [op][1..] == [];
    } else {
      var rest := ops[1..];
      assert AllInBounds(rest, a, b) by {
        forall k | 0 <= k < |rest| ensures InBounds(rest[k], a, b) { assert rest[k] == ops[k + 1]; }
      }
      assert AllInBounds(rest + [op], a, b) by {
        forall k | 0 <= k < |rest| + 1 ensures InBounds((rest + [op])[k], a, b) {
          if k < |rest| { assert (rest + [op])[k] == rest[k]; }
        }
      }
      assert AllInBounds(ops + [op], a, b) by {
        forall k | 0 <= k < |ops| + 1 ensures InBounds((ops + [op])[k], a, b) {
          if k < |ops| { assert (ops + [op])[k] == ops[k]; }
        }
      }
      calc {
        Render(ops + [op], a, b);
        { assert (ops + [op])[0] == ops[0] && (ops + [op])[1..] == rest + [op]; }
        RenderOp(ops[0], a, b) + Render(rest + [op], a, b);
        { RenderAppend(rest, op, a, b); }
        RenderOp(ops[0], a, b) + (Render(rest, a, b) + RenderOp(op, a, b));
        (RenderOp(ops[0], a, b) + Render(rest, a, b)) + RenderOp(op, a, b);
      }
    }
  }

  /** The lines `WriteDiff` returns are `Tagged(m, list[start..end])`. */
  lemma WrittenIsTagged(m: Marker, list: seq<string>, start: nat, end: nat, lines: seq<Line>)
    requires start <= end <= |list|
    requires |lines| == end - start
    requires forall k :: 0 <= k < |lines| ==> lines[k] == Line(m, list[start + k])
    ensures lines == Tagged(m, list[start..end])
  {
  }

  /** The body of the opcode loop (lines 30-38): the `if`/`elif` chain on the tag. */
  method WriteOpcode(op: Opcode, a: seq<string>, b: seq<string>) returns (out: seq<Line>)
    requires InBounds(op, a, b)
    ensures out == RenderOp(op, a, b)
  {
    if op.tag == Insert {
      out := WriteDiff(Added, b, op.blo, op.bhi);
      WrittenIsTagged(Added, b, op.blo, op.bhi, out);
    } else if op.tag == Delete {
      out := WriteDiff(Removed, a, op.alo, op.ahi);
      WrittenIsTagged(Removed, a, op.alo, op.ahi, out);
    } else if op.tag == Equal {
      out := WriteDiff(Unchanged, a, op.alo, op.ahi);
      WrittenIsTagged(Unchanged, a, op.alo, op.ahi, out);
    } else {
      var declared := WriteDiff(ReplacedOld, a, op.alo, op.ahi);
      WrittenIsTagged(ReplacedOld, a, op.alo, op.ahi, declared);
      var sorted := WriteDiff(ReplacedNew, b, op.blo, op.bhi);
      WrittenIsTagged(ReplacedNew, b, op.blo, op.bhi, sorted);
      out := declared + sorted;
    }
  }

  /** The loop over `matcher.get_opcodes()` (lines 29-38): prints `Render(ops, a, b)`. */
  method RenderDiff(ops: seq<Opcode>, a: seq<string>, b: seq<string>) returns (lines: seq<Line>)
    requires AllInBounds(ops, a, b)
    ensures lines == Render(ops, a, b)
  {
    lines := [];
    for i := 0 to |ops|
      invariant lines == Render(ops[..i], a, b)
    {
      var op := ops[i];
      var out := WriteOpcode(op, a, b);
      assert AllInBounds(ops[..i], a, b);
      RenderAppend(ops[..i], op, a, b);
      assert ops[..i + 1] == ops[..i] + [op];
      lines := lines + out;
    }
    assert ops[..|ops|] == ops;
  }

  /**
   * The opcodes cover `a[i..]` and `b[j..]` contiguously, left to right, as `get_opcodes()`
   * promises: `equal` runs are equal, `insert` consumes nothing of `a`, `delete` nothing of `b`.
   */
  predicate TilesFrom(ops: seq<Opcode>, a: seq<string>, b: seq<string>, i: nat, j: nat)
    decreases |ops|
  {
    if ops == [] then i == |a| && j == |b|
    else
      var op := ops[0];
      op.alo == i && op.blo == j && InBounds(op, a, b)
      && (op.tag == Equal ==> a[op.alo..op.ahi] == b[op.blo..op.bhi])
      && (op.tag == Insert ==> op.alo == op.ahi)
      && (op.tag == Delete ==> op.blo == op.bhi)
      && TilesFrom(ops[1..], a, b, op.ahi, op.bhi)
  }

  /** The opcodes cover both whole lists. */
  predicate Tiles(ops: seq<Opcode>, a: seq<string>, b: seq<string>) {
    TilesFrom(ops, a, b, 0, 0)
  }

  lemma {:induction false} TilesFromInBounds(ops: seq<Opcode>, a: seq<string>, b: seq<string>, i: nat, j: nat)
    requires TilesFrom(ops, a, b, i, j)
    ensures i <= |a| && j <= |b|
    ensures AllInBounds(ops, a, b)
  {
    if ops != [] {
      TilesFromInBounds(ops[1..], a, b, ops[0].ahi, ops[0].bhi);
      assert ops == [ops[0]] + ops[1..];
    }
  }

  /** A line that stands for an element of the declared list. */
  predicate FromOld(m: Marker) {
    m == Unchanged || m == Removed || m == ReplacedOld
  }

  /** A line that stands for an element of the sorted list. */
  predicate FromNew(m: Marker) {
    m == Unchanged || m == Added || m == ReplacedNew
  }

  /** The name a line contributes to the declared list: one name or none. */
  function OldName(l: Line): seq<string> {
    if FromOld(l.marker) then [l.name] else []
  }

  /** The name a line contributes to the sorted list: one name or none. */
  function NewName(l: Line): seq<string> {
    if FromNew(l.marker) then [l.name] else []
  }

  /** The names of the lines that stand for the declared list, in order. */
  function OldSide(lines: seq<Line>): seq<string> {
    if lines == [] then [] else OldName(lines[0]) + OldSide(lines[1..])
  }

  /** The names of the lines that stand for the sorted list, in order. */
  function NewSide(lines: seq<Line>): seq<string> {
    if lines == [] then [] else NewName(lines[0]) + NewSide(lines[1..])
  }

  lemma {:induction false} OldSideAppend(x: seq<Line>, y: seq<Line>)
    ensures OldSide(x + y) == OldSide(x) + OldSide(y)
  {
    if x == [] {
      assert x + y == y;
    } else {
      calc {
        OldSide(x + y);
        { assert (x + y)[0] == x[0] && (x + y)[1..] == x[1..] + y; }
        OldName(x[0]) + OldSide(x[1..] + y);
        { OldSideAppend(x[1..], y); }
        OldName(x[0]) + (OldSide(x[1..]) + OldSide(y));
        (OldName(x[0]) + OldSide(x[1..])) + OldSide(y);
      }
    }
  }

  lemma {:induction false} NewSideAppend(x: seq<Line>, y: seq<Line>)
    ensures NewSide(x + y) == NewSide(x) + NewSide(y)
  {
    if x == [] {
      assert x + y == y;
    } else {
      calc {
        NewSide(x + y);
        { assert (x + y)[0] == x[0] && (x + y)[1..] == x[1..] + y; }
        NewName(x[0]) + NewSide(x[1..] + y);
        { NewSideAppend(x[1..], y); }
        NewName(x[0]) + (NewSide(x[1..]) + NewSide(y));
        (NewName(x[0]) + NewSide(x[1..])) + NewSide(y);
      }
    }
  }

  lemma {:induction false} OldSideTagged(m: Marker, names: seq<string>)
    ensures OldSide(Tagged(m, names)) == if FromOld(m) then names else []
  {
    if names != [] {
      OldSideTagged(m, names[1..]);
      assert names == [names[0]] + names[1..];
    }
  }

  lemma {:induction false} NewSideTagged(m: Marker, names: seq<string>)
    ensures NewSide(Tagged(m, names)) == if FromNew(m) then names else []
  {
    if names != [] {
      NewSideTagged(m, names[1..]);
      assert names == [names[0]] + names[1..];
    }
  }

  /** One segment prints `olds` on the declared side. */
  lemma OldSideSegment(tag: Tag, olds: seq<string>, news: seq<string>)
    requires tag == Insert ==> olds == []
    ensures OldSide(Segment(tag, olds, news)) == olds
  {
    match tag
    case Insert =>
      OldSideTagged(Added, news);
    case Delete =>
      OldSideTagged(Removed, olds);
    case Equal =>
      OldSideTagged(Unchanged, olds);
    case Replace =>
      OldSideTagged(ReplacedOld, olds);
      OldSideTagged(ReplacedNew, news);
      OldSideAppend(Tagged(ReplacedOld, olds), Tagged(ReplacedNew, news));
  }

  /** One segment prints `news` on the sorted side. */
  lemma NewSideSegment(tag: Tag, olds: seq<string>, news: seq<string>)
    requires tag == Equal ==> olds == news
    requires tag == Delete ==> news == []
    ensures NewSide(Segment(tag, olds, news)) == news
  {
    match tag
    case Insert =>
      NewSideTagged(Added, news);
    case Delete =>
      NewSideTagged(Removed, olds);
    case Equal =>
      NewSideTagged(Unchanged, olds);
    case Replace =>
      NewSideTagged(ReplacedOld, olds);
      NewSideTagged(ReplacedNew, news);
      NewSideAppend(Tagged(ReplacedOld, olds), Tagged(ReplacedNew, news));
  }

  lemma SliceSplit(s: seq<string>, lo: nat, mid: nat)
    requires lo <= mid <= |s|
    ensures s[lo..] == s[lo..mid] + s[mid..]
  {
  }

  lemma {:induction false} ReconstructFrom(ops: seq<Opcode>, a: seq<string>, b: seq<string>, i: nat, j: nat)
    requires TilesFrom(ops, a, b, i, j)
    ensures AllInBounds(ops, a, b)
    ensures i <= |a| && j <= |b|
    ensures OldSide(Render(ops, a, b)) == a[i..]
    ensures NewSide(Render(ops, a, b)) == b[j..]
  {
    TilesFromInBounds(ops, a, b, i, j);
    if ops == [] {
      assert a[i..] == [] && b[j..] == [];
    } else {
      var op := ops[0];
      ReconstructFrom(ops[1..], a, b, op.ahi, op.bhi);
      OldSideSegment(op.tag, a[op.alo..op.ahi], b[op.blo..op.bhi]);
      NewSideSegment(op.tag, a[op.alo..op.ahi], b[op.blo..op.bhi]);
      OldSideAppend(RenderOp(op, a, b), Render(ops[1..], a, b));
      NewSideAppend(RenderOp(op, a, b), Render(ops[1..], a, b));
      SliceSplit(a, i, op.ahi);
      SliceSplit(b, j, op.bhi);
    }
  }

  /**
   * When the opcodes tile both lists, the unchanged, deleted and old replaced lines spell the
   * declared list, and the unchanged, inserted and new replaced lines spell the sorted list.
   */
  lemma Reconstruct(ops: seq<Opcode>, a: seq<string>, b: seq<string>)
    requires Tiles(ops, a, b)
    ensures AllInBounds(ops, a, b)
    ensures OldSide(Render(ops, a, b)) == a
    ensures NewSide(Render(ops, a, b)) == b
  {
    ReconstructFrom(ops, a, b, 0, 0);
  }

  /** A diff of two lists that are not both empty prints at least one line. */
  lemma RenderNonEmpty(ops: seq<Opcode>, a: seq<string>, b: seq<string>)
    requires Tiles(ops, a, b)
    requires a != [] || b != []
    ensures AllInBounds(ops, a, b)
    ensures Render(ops, a, b) != []
  {
    Reconstruct(ops, a, b);
  }
}
