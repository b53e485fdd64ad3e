/** The versioned tree update as a function of the readable nodes and a sorted
    commitment list. `SmtUpdater` runs it in place; `SmtUpdateProofs` shows what it computes. */
module SmtUpdate {
  import opened SmtKeys
  import opened SmtTree
  import opened Options

  /** Data stored at a tree position. */
  datatype Node =
    | EmptyNode
    | Internal(hash: Digest)
    | Leaf(key: ResourceId, value: Digest, hash: Digest)

  /** One state change; the empty hash deletes the key. */
  datatype Commitment = Commitment(key: ResourceId, value: Digest)

  /** The latest readable node at each position, as a tree lookup at one version returns it. */
  type View = map<Position, Node>

  function LeafNode(key: ResourceId, value: Digest): Node {
    Leaf(key, value, LeafSummary(key, value).hash)
  }

  function InternalNode(left: HashedNode, right: HashedNode): Node {
    Internal(InternalSummary(left, right).hash)
  }

  function NodeSummary(n: Node): HashedNode {
    match n
    case EmptyNode => EMPTY_NODE
    case Internal(h) => HashedNode(INTERNAL, h)
    case Leaf(_, _, h) => HashedNode(LEAF, h)
  }

  /** The node at `p`, with an empty tombstone read as no node. */
  function Read(view: View, p: Position): Option<Node> {
    if p in view && view[p] != EmptyNode then Some(view[p]) else None
  }

  /** Nodes only sit where an update can have put them. */
  predicate PlacedAt(p: Position, n: Node) {
    (n.Internal? ==> |p| < DEPTH) && (n.Leaf? ==> p <= n.key)
  }

  ghost predicate WellPlaced(view: View) {
    forall p :: p in view ==> PlacedAt(p, view[p])
  }

  function KeysOf(cs: seq<Commitment>): (keys: seq<ResourceId>)
    ensures |keys| == |cs|
    ensures forall i :: 0 <= i < |cs| ==> keys[i] == cs[i].key
  {
    seq(|cs|, i requires 0 <= i < |cs| => cs[i].key)
  }

  /** A commitment slice as the recursion receives it: strictly ascending, all below `p`. */
  ghost predicate SliceAt(cs: seq<Commitment>, p: Position) {
    Ascending(KeysOf(cs)) && AllUnder(KeysOf(cs), p)
  }

  /** Index of the first live commitment at or after `from`. */
  function NextLive(cs: seq<Commitment>, from: nat): (i: nat)
    requires from <= |cs|
    ensures from <= i <= |cs| && (i < |cs| ==> cs[i].value != Zero)
    ensures forall j :: from <= j < i ==> cs[j].value == Zero
    decreases |cs| - from
  {
    if from == |cs| || cs[from].value != Zero then from else NextLive(cs, from + 1)
  }

  /** Where a key belongs in a sorted slice. */
  function InsertPoint(cs: seq<Commitment>, key: ResourceId): (pos: nat)
    ensures pos <= |cs|
  {
    PartitionPoint(seq(|cs|, i requires 0 <= i < |cs| => Less(cs[i].key, key)), 0, |cs|)
  }

  lemma InsertPointIsExact(cs: seq<Commitment>, key: ResourceId)
    requires Ascending(KeysOf(cs))
    ensures forall i :: 0 <= i < |cs| ==> (Less(cs[i].key, key) <==> i < InsertPoint(cs, key))
  {
    var flags := seq(|cs|, i requires 0 <= i < |cs| => Less(cs[i].key, key));
    forall i, j | 0 <= i < j < |cs| && flags[j] ensures flags[i] {
      assert Less(KeysOf(cs)[i], KeysOf(cs)[j]);
      LessIsTransitive(cs[i].key, cs[j].key, key);
    }
    PartitionPointIsExact(flags, 0, |cs|);
    forall i | 0 <= i < |cs| ensures Less(cs[i].key, key) <==> i < InsertPoint(cs, key) {
      assert flags[i] == Less(cs[i].key, key);
    }
  }

  /** A slice with an absent key put in at its sorted position. */
  function Merged(cs: seq<Commitment>, key: ResourceId, value: Digest): seq<Commitment> {
    var pos := InsertPoint(cs, key);
    cs[..pos] + [Commitment(key, value)] + cs[pos..]
  }

  lemma MergedIsASlice(cs: seq<Commitment>, p: Position, key: ResourceId, value: Digest)
    requires SliceAt(cs, p) && p <= key
    requires forall i :: 0 <= i < |cs| ==> cs[i].key != key
    ensures SliceAt(Merged(cs, key, value), p)
  {
    var pos, keys := InsertPoint(cs, key), KeysOf(cs);
    InsertPointIsExact(cs, key);
    forall i | pos <= i < |cs| ensures Less(key, keys[i]) {
      LessIsTotal(key, keys[i]);
    }
    AscendingInsert(keys, pos, key);
    assert KeysOf(Merged(cs, key, value)) == keys[..pos] + [key] + keys[pos..];
  }

  lemma AscendingInsert(keys: seq<ResourceId>, pos: nat, key: ResourceId)
    requires Ascending(keys) && pos <= |keys|
    requires forall i :: 0 <= i < pos ==> Less(keys[i], key)
    requires forall i :: pos <= i < |keys| ==> Less(key, keys[i])
    ensures Ascending(keys[..pos] + [key] + keys[pos..])
  {
    var out := keys[..pos] + [key] + keys[pos..];
    assert forall i :: 0 <= i < pos ==> out[i] == keys[i];
    assert forall i :: pos < i < |out| ==> out[i] == keys[i - 1];
  }

  lemma HalvesAreSlices(cs: seq<Commitment>, p: Position)
    requires SliceAt(cs, p) && |p| < DEPTH
    ensures var mid := SplitPoint(KeysOf(cs), |p|);
            SliceAt(cs[..mid], p + [false]) && SliceAt(cs[mid..], p + [true])
  {
    var mid := SplitPoint(KeysOf(cs), |p|);
    SplitIsExact(KeysOf(cs), p);
    assert KeysOf(cs[..mid]) == KeysOf(cs)[..mid];
    assert KeysOf(cs[mid..]) == KeysOf(cs)[mid..];
  }

  lemma TwoEntriesAreAboveTheBottom(cs: seq<Commitment>, p: Position, i: nat, j: nat)
    requires SliceAt(cs, p) && i < j < |cs|
    ensures |p| < DEPTH && cs[i].key != cs[j].key
  {
    assert Less(KeysOf(cs)[i], KeysOf(cs)[j]);
    LessIsStrict(cs[i].key, cs[j].key);
    assert p <= KeysOf(cs)[i] && p <= KeysOf(cs)[j];
    DistinctKeysAreAboveTheBottom(cs[i].key, cs[j].key, p);
  }

  /** What updating one subtree yields: its new node, which the caller places, and the
      nodes written strictly below it. */
  datatype Update = Update(node: Option<Node>, writes: View)

  ghost predicate UpdatePlaced(u: Update, p: Position) {
    (u.node.Some? ==> u.node.value != EmptyNode && PlacedAt(p, u.node.value)) && WellPlaced(u.writes)
  }

  function UpdateSubtree(view: View, p: Position, cs: seq<Commitment>): (u: Update)
    requires WellPlaced(view) && SliceAt(cs, p)
    ensures UpdatePlaced(u, p)
    decreases DEPTH - |p|, 3, view
  {
    if cs == [] then Update(Read(view, p), map[])
    else if p !in view then ResolveLeaves(view, p, cs)
    else
      match view[p]
      case EmptyNode => ResolveLeaves(view, p, cs)
      case Leaf(key, value, _) => UpdateAtLeaf(view, p, cs, key, value)
      case Internal(_) => SplitAndRecurse(view, p, cs)
  }

  function ResolveLeaves(view: View, p: Position, cs: seq<Commitment>): (u: Update)
    requires WellPlaced(view) && SliceAt(cs, p)
    ensures UpdatePlaced(u, p)
    decreases DEPTH - |p|, 1, view
  {
    var first := NextLive(cs, 0);
    if first == |cs| then Update(None, map[])
    else if NextLive(cs, first + 1) == |cs| then
      assert p <= KeysOf(cs)[first];
      Update(Some(LeafNode(cs[first].key, cs[first].value)), map[])
    else
      TwoEntriesAreAboveTheBottom(cs, p, first, NextLive(cs, first + 1));
      SplitAndRecurse(view, p, cs)
  }

  function UpdateAtLeaf(view: View, p: Position, cs: seq<Commitment>, key: ResourceId, value: Digest): (u: Update)
    requires WellPlaced(view) && SliceAt(cs, p) && cs != [] && p <= key
    ensures UpdatePlaced(u, p)
    decreases DEPTH - |p|, 2, view
  {
    if |cs| == 1 && cs[0].key == key then
      Update(if cs[0].value == Zero then None else Some(LeafNode(key, cs[0].value)), map[])
    else if Mentions(cs, key) then ResolveLeaves(view, p, cs)
    else
      MentionsIsExact(cs, key);
      MergedIsASlice(cs, p, key, value);
      ResolveLeaves(view, p, Merged(cs, key, value))
  }

  /** Whether a sorted slice already holds `key`, looked up at its insert point. */
  predicate Mentions(cs: seq<Commitment>, key: ResourceId) {
    var pos := InsertPoint(cs, key);
    pos < |cs| && cs[pos].key == key
  }

  lemma MentionsIsExact(cs: seq<Commitment>, key: ResourceId)
    requires Ascending(KeysOf(cs))
    ensures Mentions(cs, key) <==> exists i :: 0 <= i < |cs| && cs[i].key == key
  {
    InsertPointIsExact(cs, key);
    var pos := InsertPoint(cs, key);
    if Less(key, key) {
      LessIsStrict(key, key);
    }
    forall i | pos < i < |cs| ensures cs[i].key != key {
      assert Less(KeysOf(cs)[pos], KeysOf(cs)[i]);
    }
  }

  function SplitAndRecurse(view: View, p: Position, cs: seq<Commitment>): (u: Update)
    requires WellPlaced(view) && SliceAt(cs, p) && |p| < DEPTH
    ensures UpdatePlaced(u, p)
    decreases DEPTH - |p|, 0, view
  {
    var mid := SplitPoint(KeysOf(cs), |p|);
    HalvesAreSlices(cs, p);
    var left := UpdateSubtree(view, p + [false], cs[..mid]);
    var right := UpdateSubtree(view, p + [true], cs[mid..]);
    Joined(view, p, left, right)
  }

  /** Two child outcomes that leave no internal node: a lone leaf bubbles up. */
  predicate Bubbles(left: Option<Node>, right: Option<Node>) {
    || (left.None? && right.None?)
    || (right.None? && left.value.Leaf?)
    || (left.None? && right.value.Leaf?)
  }

  function JoinedNode(left: Option<Node>, right: Option<Node>): Option<Node> {
    if Bubbles(left, right) then (if right.None? then left else right)
    else Some(InternalNode(ChildSummary(left), ChildSummary(right)))
  }

  /** Bubbles a lone leaf up, or writes both children and makes an internal node. */
  function Joined(view: View, p: Position, left: Update, right: Update): (u: Update)
    requires |p| < DEPTH && UpdatePlaced(left, p + [false]) && UpdatePlaced(right, p + [true])
    ensures UpdatePlaced(u, p)
  {
    var node, writes := JoinedNode(left.node, right.node), left.writes + right.writes;
    if Bubbles(left.node, right.node) then
      assert node.Some? ==> p <= node.value.key by {
        if left.node.Some? {
          BelowParent(p, false, left.node.value.key);
        } else if right.node.Some? {
          BelowParent(p, true, right.node.value.key);
        }
      }
      Update(node, writes)
    else
      Update(node, writes + ChildWrites(view, p + [false], left.node)
                          + ChildWrites(view, p + [true], right.node))
  }

  function ChildSummary(child: Option<Node>): HashedNode {
    if child.Some? then NodeSummary(child.value) else EMPTY_NODE
  }

  /** The write for one child: its node, or a tombstone over a node that has disappeared. */
  function ChildWrites(view: View, p: Position, child: Option<Node>): (w: View)
    requires child.Some? ==> PlacedAt(p, child.value)
    ensures WellPlaced(w)
  {
    if child.Some? then map[p := child.value]
    else if Read(view, p).Some? then map[p := EmptyNode]
    else map[]
  }

  /** A whole update: the new root hash and every written node, the root included. */
  datatype Applied = Applied(root: Digest, writes: View)

  function NodeHash(n: Node): Digest {
    NodeSummary(n).hash
  }

  /** Places the root node under the empty position and hashes it. */
  function PlaceRoot(u: Update): (a: Applied)
    requires UpdatePlaced(u, [])
    ensures WellPlaced(a.writes)
  {
    match u.node
    case None => Applied(Zero, u.writes[[] := EmptyNode])
    case Some(n) => Applied(NodeHash(n), u.writes[[] := n])
  }

  function ApplySorted(view: View, cs: seq<Commitment>): (a: Applied)
    requires WellPlaced(view) && SliceAt(cs, [])
    ensures WellPlaced(a.writes)
  {
    PlaceRoot(UpdateSubtree(view, [], cs))
  }
}
