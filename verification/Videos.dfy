/** The video placement maps of scratch/videos.h. */
module Videos {
  import opened ControllerModel
  import opened Seqs

  /** The values start, start + 1, ..., last. */
  function Range(start: nat, last: nat): (s: seq<nat>)
    ensures |s| == if start <= last then last - start + 1 else 0
    ensures forall i :: 0 <= i < |s| ==> s[i] == start + i
    decreases last - start
  {
    if start > last then [] else if start == last then [start] else Range(start, last - 1) + [last]
  }

  lemma RangeSnoc(before: seq<nat>, start: nat, i: nat)
    requires start <= i
    ensures i == start ==> before + [i] == before + Range(start, i)
    ensures i > start ==> before + Range(start, i - 1) + [i] == before + Range(start, i)
  {
    if i > start {
      ConcatAssociative(before, Range(start, i - 1), [i]);
    }
  }

  class VideoStore {
    var capacityNodes: map<nat, int>
    var assignedNodes: map<nat, int>
    var contentVideoToNodes: map<nat, seq<nat>>

    constructor ()
      ensures View() == Cache(map[], map[], map[])
    {
      capacityNodes, assignedNodes, contentVideoToNodes := map[], map[], map[];
    }

    ghost function View(): Cache
      reads this
    {
      Cache(contentVideoToNodes, assignedNodes, capacityNodes)
    }

    /** Appends one video to those of a node. */
    method PushVideo(idNode: nat, video: nat)
      modifies `contentVideoToNodes
      ensures contentVideoToNodes == old(contentVideoToNodes)[idNode := old(VideosAt(View(), idNode)) + [video]]
    {
      var bound := if idNode in contentVideoToNodes then contentVideoToNodes[idNode] else [];
      contentVideoToNodes := contentVideoToNodes[idNode := bound + [video]];
    }

    method BindVideosToNode(idNode: nat, start: nat, contentN: nat)
      modifies `contentVideoToNodes
      ensures start <= contentN ==>
                contentVideoToNodes == old(contentVideoToNodes)[idNode := old(VideosAt(View(), idNode))
                                                                + Range(start, contentN)]
      ensures start > contentN ==> contentVideoToNodes == old(contentVideoToNodes)
    {
      ghost var before := VideosAt(View(), idNode);
      if start > contentN {
        return;
      }
      var i := start;
      while i <= contentN
        invariant start <= i <= contentN + 1
        invariant i == start ==> contentVideoToNodes == old(contentVideoToNodes)
        invariant i > start ==> contentVideoToNodes == old(contentVideoToNodes)[idNode := before + Range(start, i - 1)]
      {
        PushVideo(idNode, i);
        RangeSnoc(before, start, i);
        i := i + 1;
      }
    }

    method HasVideoByNode(idNode: nat, content: nat) returns (has: bool)
      ensures has <==> content in VideosAt(View(), idNode)
    {
      var bound := if idNode in contentVideoToNodes then contentVideoToNodes[idNode] else [];
      for i := 0 to |bound|
        invariant content !in bound[..i]
      {
        if bound[i] == content {
          return true;
        }
        assert bound[..i + 1] == bound[..i] + [bound[i]];
      }
      assert bound[..|bound|] == bound;
      return false;
    }

    method AddCapacityNode(idNode: nat, capacity: int)
      modifies `capacityNodes, `assignedNodes
      ensures LimitAt(View(), idNode) == capacity && PlacedAt(View(), idNode) == 0
      ensures forall v :: v != idNode ==>
                LimitAt(View(), v) == old(LimitAt(View(), v)) && PlacedAt(View(), v) == old(PlacedAt(View(), v))
    {
      capacityNodes := capacityNodes[idNode := capacity];
      assignedNodes := assignedNodes[idNode := 0];
    }

    /** Places the video if the node has room for it. */
    method VideoAssignment(idNode: nat, content: nat) returns (placed: bool)
      modifies `assignedNodes, `contentVideoToNodes
      ensures placed <==> old(PlacedAt(View(), idNode) < LimitAt(View(), idNode))
      ensures !placed ==> View() == old(View())
      ensures placed ==> View() == Cache(old(contentVideoToNodes)[idNode := old(VideosAt(View(), idNode)) + [content]],
                                         old(assignedNodes)[idNode := old(PlacedAt(View(), idNode)) + 1],
                                         old(capacityNodes))
    {
      var count := if idNode in assignedNodes then assignedNodes[idNode] else 0;
      var capacity := if idNode in capacityNodes then capacityNodes[idNode] else 0;
      if count < capacity {
        assignedNodes := assignedNodes[idNode := count + 1];
        BindVideosToNode(idNode, content, content);
        return true;
      }
      return false;
    }

    /** Asks the node to serve the video: it does if it holds the video or has room, and then it holds it. */
    method ServeFrom(idNode: nat, content: nat) returns (ok: bool)
      modifies `assignedNodes, `contentVideoToNodes
      ensures ok <==>
                || old(idNode in contentVideoToNodes && content in contentVideoToNodes[idNode])
                || old((if idNode in assignedNodes then assignedNodes[idNode] else 0)
                       < (if idNode in capacityNodes then capacityNodes[idNode] else 0))
      ensures !ok || old(idNode in contentVideoToNodes && content in contentVideoToNodes[idNode]) ==>
                contentVideoToNodes == old(contentVideoToNodes) && assignedNodes == old(assignedNodes)
      ensures ok && !old(idNode in contentVideoToNodes && content in contentVideoToNodes[idNode]) ==>
                && contentVideoToNodes == old(contentVideoToNodes)[idNode := old(VideosAt(View(), idNode)) + [content]]
                && assignedNodes == old(assignedNodes)[idNode := old(PlacedAt(View(), idNode)) + 1]
      ensures ok <==> old(Available(View(), idNode, content))
      ensures View() == if ok then Provide(old(View()), idNode, content) else old(View())
    {
      ok := HasVideoByNode(idNode, content);
      if !ok {
        ok := VideoAssignment(idNode, content);
      }
    }
  }
}
