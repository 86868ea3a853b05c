/**
 Node identity. The program hashes (source file, parent ID, sibling index), or a
 namespaced payload, to an 11-character ID. Here an ID is the tuple that is hashed,
 so "two IDs are equal iff their hash inputs are" is the assumption that hashes do
 not collide. A content hash is likewise the text it was computed from.
*/
module Ids {
  import opened Wrappers

  datatype NodeId =
    | Pos(source: string, parent: Option<NodeId>, index: nat)
    | Payload(text: string)
    | Anchor(name: string)  // a caller-made string that is no hash of either kind

  datatype Hash = HashOf(text: string)

  const WRITE_SOURCE := "mcp:write"

  // What an ID says about the row that carries it.

  function ParentOf(id: NodeId): Option<NodeId> {
    if id.Pos? then id.parent else None
  }

  function SourceOf(id: NodeId): string {
    if id.Pos? then id.source else WRITE_SOURCE
  }

  function DepthOf(id: NodeId): nat {
    match id
    case Pos(_, Some(p), _) => 1 + DepthOf(p)
    case _ => 1
  }

  /** Every ancestor of a positional ID is positional, in the same file. */
  predicate WellPlaced(id: NodeId) {
    match id
    case Pos(source, Some(p), _) => p.Pos? && p.source == source && WellPlaced(p)
    case _ => true
  }

  /** `top` is `id` or one of its ancestors. */
  predicate Below(id: NodeId, top: NodeId) {
    id == top || match id case Pos(_, Some(p), _) => Below(p, top) case _ => false
  }

  lemma {:induction false} BelowTransitive(a: NodeId, b: NodeId, c: NodeId)
    requires Below(a, b) && Below(b, c)
    ensures Below(a, c)
  {
    if a != b {
      BelowTransitive(ParentOf(a).value, b, c);
    }
  }

  lemma {:induction false} BelowIsDeeper(id: NodeId, top: NodeId)
    requires Below(id, top)
    ensures DepthOf(top) <= DepthOf(id)
    ensures DepthOf(top) == DepthOf(id) ==> id == top
  {
    if id != top {
      BelowIsDeeper(ParentOf(id).value, top);
    }
  }

  /** An ID has at most one ancestor at each depth. */
  lemma {:induction false} AncestorAtDepthIsUnique(id: NodeId, a: NodeId, b: NodeId)
    requires Below(id, a) && Below(id, b) && DepthOf(a) == DepthOf(b)
    ensures a == b
  {
    if id == a {
      BelowIsDeeper(id, b);
    } else if id == b {
      BelowIsDeeper(id, a);
    } else {
      AncestorAtDepthIsUnique(ParentOf(id).value, a, b);
    }
  }

  lemma {:induction false} BelowKeepsSource(id: NodeId, top: NodeId)
    requires WellPlaced(id) && Below(id, top)
    ensures SourceOf(top) == SourceOf(id)
  {
    if id != top {
      BelowKeepsSource(ParentOf(id).value, top);
    }
  }
}
