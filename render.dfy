/**
 * The node selection of Render: the cached nodes that pass the four
 * feature filters (visited, hidden, locked and unlocked nodes) before the
 * on-screen test and the drawing.
 */
module Render {
  import opened Codecs
  import opened Nodes

  /** The four ProcessXxxNodes switches of the feature settings. */
  datatype Features = Features(processVisited: bool, processHidden: bool, processLocked: bool, processUnlocked: bool)

  /** The first filter: visited nodes only when asked for, or attempted. */
  predicate VisitedFilter(f: Features, n: Node)
    reads n`isUnlocked, n`isVisited
  {
    f.processVisited || !n.isVisited || n.IsAttempted()
  }

  /** The second filter: hidden nodes only when asked for, or towers. */
  predicate HiddenFilter(f: Features, n: Node)
    reads n`isVisible, n`mapType, n.mapType`ids
  {
    (f.processHidden && !n.isVisible) || n.isVisible || n.IsTower()
  }

  /** The third filter: locked nodes only when asked for. */
  predicate LockedFilter(f: Features, n: Node)
    reads n`isUnlocked
  {
    (f.processLocked && !n.isUnlocked) || n.isUnlocked
  }

  /** The fourth filter: unlocked nodes only when asked for. */
  predicate UnlockedFilter(f: Features, n: Node)
    reads n`isUnlocked
  {
    (f.processUnlocked && n.isUnlocked) || !n.isUnlocked
  }

  /** A node passes the chain of filters exactly when a visited one is
      still locked or visited nodes are processed, a hidden one is a tower
      or hidden nodes are processed, and its lock state is one that is
      processed. */
  predicate Selected(f: Features, n: Node)
    reads n`isUnlocked, n`isVisited, n`isVisible, n`mapType, n.mapType`ids
    ensures Selected(f, n) <==>
      && (n.isVisited && n.isUnlocked ==> f.processVisited)
      && (!n.isVisible && !n.IsTower() ==> f.processHidden)
      && (if n.isUnlocked then f.processUnlocked else f.processLocked)
  {
    VisitedFilter(f, n) && HiddenFilter(f, n) && LockedFilter(f, n) && UnlockedFilter(f, n)
  }

  /** The nodes of the cache the four filters keep. */
  function SelectedNodes(cache: map<Vector2i, Node>, f: Features): (r: set<Node>)
    reads cache.Values`isUnlocked, cache.Values`isVisited, cache.Values`isVisible, cache.Values`mapType
    reads set n | n in cache.Values :: n.mapType
    ensures r <= cache.Values
    ensures forall n | n in cache.Values :: n in r <==> Selected(f, n)
  {
    set n | n in cache.Values && Selected(f, n)
  }

  /** With every switch on, every cached node is selected. */
  lemma AllFeaturesSelectAll(cache: map<Vector2i, Node>)
    ensures SelectedNodes(cache, Features(true, true, true, true)) == cache.Values
  {
  }

  /** With both lock switches off, no node is selected. */
  lemma NoLockStateSelectsNone(cache: map<Vector2i, Node>, visited: bool, hidden: bool)
    ensures SelectedNodes(cache, Features(visited, hidden, false, false)) == {}
  {
    forall n | n in cache.Values
      ensures !Selected(Features(visited, hidden, false, false), n)
    {
      if n.isUnlocked {
        assert !UnlockedFilter(Features(visited, hidden, false, false), n);
      } else {
        assert !LockedFilter(Features(visited, hidden, false, false), n);
      }
    }
  }

  /** Switching a feature on never drops a node. */
  lemma MoreFeaturesSelectMore(cache: map<Vector2i, Node>, f: Features, g: Features)
    requires f.processVisited ==> g.processVisited
    requires f.processHidden ==> g.processHidden
    requires f.processLocked ==> g.processLocked
    requires f.processUnlocked ==> g.processUnlocked
    ensures SelectedNodes(cache, f) <= SelectedNodes(cache, g)
  {
  }
}
