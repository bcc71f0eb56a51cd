/** The route object of scratch/path.h: a node sequence with a cursor. */
module Paths {

  /** Values of a C++ unsigned wrap at 2^32, those of size_t at 2^64. */
  const UNSIGNED := 0x1_0000_0000
  const SIZE_T := 0x1_0000_0000_0000_0000

  class Path {
    var length: nat
    var from: nat
    var to: nat
    var actualPos: nat
    var path: seq<nat>

    ghost predicate Valid()
      reads this
    {
      && length == |path| < UNSIGNED && actualPos < UNSIGNED
      && (path != [] ==> from == path[0] && to == path[|path| - 1])
    }

    constructor ()
      ensures Valid() && path == [] && from == to == UNSIGNED - 1 && actualPos == 0
    {
      to, from := UNSIGNED - 1, UNSIGNED - 1;
      actualPos, length := 0, 0;
      path := [];
    }

    /** Copying a path, as its by-value uses do. */
    constructor Copy(p: Path)
      requires p.Valid()
      ensures Valid() && path == p.path && actualPos == p.actualPos && from == p.from && to == p.to
    {
      length, from, to, actualPos, path := p.length, p.from, p.to, p.actualPos, p.path;
    }

    /** A path with the given nodes and its cursor at the start. */
    constructor Of(nodes: seq<nat>)
      requires |nodes| < UNSIGNED
      ensures Valid() && path == nodes && actualPos == 0
    {
      length, actualPos, path := |nodes|, 0, nodes;
      from, to := if nodes == [] then 0 else nodes[0], if nodes == [] then 0 else nodes[|nodes| - 1];
    }

    method AddLinkToPath(next: nat)
      requires Valid() && |path| + 1 < UNSIGNED
      modifies this
      ensures Valid() && path == old(path) + [next] && actualPos == old(actualPos)
    {
      if length == 0 {
        from := next;
      }
      length := length + 1;
      path := path + [next];
      to := next;
    }

    method Clear()
      requires Valid()
      modifies this
      ensures Valid() && path == [] && actualPos == 0 && from == to == 0
    {
      length, from, to, actualPos := 0, 0, 0, 0;
      path := [];
    }

    method GoStart()
      requires Valid()
      modifies `actualPos
      ensures Valid() && actualPos == 0
    {
      actualPos := 0;
    }

    /** The cursor goes to the last link; on a path without one it wraps around. */
    method GoLastLink()
      requires Valid()
      modifies `actualPos
      ensures Valid()
      ensures |path| >= 2 ==> actualPos == |path| - 2
      ensures |path| < 2 ==> actualPos == UNSIGNED + |path| - 2
    {
      actualPos := (|path| - 2) % SIZE_T % UNSIGNED;
    }

    method GoAhead()
      requires Valid()
      modifies `actualPos
      ensures Valid() && actualPos == if old(actualPos) == UNSIGNED - 1 then 0 else old(actualPos) + 1
    {
      actualPos := (actualPos + 1) % UNSIGNED;
    }

    method GoBack()
      requires Valid()
      modifies `actualPos
      ensures Valid() && actualPos == if old(actualPos) == 0 then UNSIGNED - 1 else old(actualPos) - 1
    {
      actualPos := (actualPos - 1) % UNSIGNED;
    }

    function GetActualStep(): (v: nat)
      requires actualPos < |path|
      reads this
    {
      path[actualPos]
    }

    function GetNextStep(): (v: nat)
      requires actualPos + 1 < |path|
      reads this
    {
      path[actualPos + 1]
    }

    /** No link starts at the cursor; an empty path is never at its end, because its length minus one wraps. */
    predicate IsEndPath()
      requires Valid()
      reads this
      ensures IsEndPath() <==> path != [] && actualPos + 1 >= |path|
    {
      actualPos >= (|path| - 1) % SIZE_T
    }

    predicate IsStartPath()
      reads this
    {
      actualPos == 0
    }
  }
}
