/** The client library's registered buffers: a singly linked list on the heap, changed through the
    address of the link that leads to each node. */
module BufferList {
  import opened Wrappers

  datatype Buffer = Buffer(id: int, address: int, width: int, height: int, stride: int)

  // ---- What the list stands for ----

  /** The first buffer with that id. */
  function Lookup(bs: seq<Buffer>, id: int): Option<Buffer> {
    if bs == [] then None else if bs[0].id == id then Some(bs[0]) else Lookup(bs[1..], id)
  }

  predicate Matches(b: Buffer, id: Option<int>) {
    id.None? || b.id == id.value
  }

  /** Without the buffers that match; no id matches every buffer. */
  function Filtered(bs: seq<Buffer>, id: Option<int>): seq<Buffer> {
    if bs == [] then []
    else Filtered(bs[..|bs| - 1], id) + if Matches(bs[|bs| - 1], id) then [] else [bs[|bs| - 1]]
  }

  lemma {:induction false} FilteredAll(bs: seq<Buffer>)
    ensures Filtered(bs, None) == []
  {
    if bs != [] {
      FilteredAll(bs[..|bs| - 1]);
    }
  }

  predicate UniqueIds(bs: seq<Buffer>) {
    forall i, j :: 0 <= i < j < |bs| ==> bs[i].id != bs[j].id
  }

  predicate Registered(bs: seq<Buffer>, id: int) {
    exists i :: 0 <= i < |bs| && bs[i].id == id
  }

  lemma {:induction false} LookupFinds(bs: seq<Buffer>, id: int)
    ensures Lookup(bs, id).Some? <==> Registered(bs, id)
    ensures Lookup(bs, id).Some? ==> Lookup(bs, id).value in bs && Lookup(bs, id).value.id == id
  {
    if bs != [] && bs[0].id != id {
      LookupFinds(bs[1..], id);
      if Registered(bs, id) {
        var i :| 0 <= i < |bs| && bs[i].id == id;
        assert bs[1..][i - 1].id == id;
      }
    }
  }

  lemma {:induction false} LookupAppend(bs: seq<Buffer>, b: Buffer, id: int)
    ensures Lookup(bs + [b], id) ==
      if Lookup(bs, id).Some? then Lookup(bs, id) else if b.id == id then Some(b) else None
  {
    if bs == [] {
      assert (bs + [b])[0] == b && (bs + [b])[1..] == [];
      assert Lookup([], id).None?;
    } else {
      assert (bs + [b])[1..] == bs[1..] + [b] && (bs + [b])[0] == bs[0];
      LookupAppend(bs[1..], b, id);
    }
  }

  lemma {:induction false} LookupFiltered(bs: seq<Buffer>, gone: int, id: int)
    ensures Lookup(Filtered(bs, Some(gone)), id) == if id == gone then None else Lookup(bs, id)
  {
    if bs != [] {
      var stem, b := bs[..|bs| - 1], bs[|bs| - 1];
      LookupFiltered(stem, gone, id);
      assert bs == stem + [b];
      LookupAppend(stem, b, id);
      var kept := Filtered(stem, Some(gone));
      LookupAppend(kept, b, id);
      assert kept + [] == kept;
    }
  }

  lemma {:induction false} FilteredMember(bs: seq<Buffer>, id: Option<int>, b: Buffer)
    ensures b in Filtered(bs, id) <==> b in bs && !Matches(b, id)
  {
    if bs != [] {
      FilteredMember(bs[..|bs| - 1], id, b);
      assert bs == bs[..|bs| - 1] + [bs[|bs| - 1]];
    }
  }

  lemma {:induction false} FilteredUnique(bs: seq<Buffer>, id: Option<int>)
    requires UniqueIds(bs)
    ensures UniqueIds(Filtered(bs, id))
  {
    if bs != [] {
      var n := |bs| - 1;
      var kept := Filtered(bs[..n], id);
      FilteredUnique(bs[..n], id);
      forall i | 0 <= i < |kept|
        ensures kept[i].id != bs[n].id
      {
        FilteredMember(bs[..n], id, kept[i]);
        var j :| 0 <= j < n && bs[..n][j] == kept[i];
        assert bs[j] == kept[i];
      }
    }
  }

  // ---- A history of registrations ----

  datatype Call = Register(buffer: Buffer) | Unregister(id: int)

  /** One call; none when one of its assertions fails. */
  function Do(bs: seq<Buffer>, call: Call): Option<seq<Buffer>> {
    match call
    case Register(b) => if Lookup(bs, b.id).Some? then None else Some(bs + [b])
    case Unregister(id) => if Lookup(bs, id).None? then None else Some(Filtered(bs, Some(id)))
  }

  function Replay(calls: seq<Call>): Option<seq<Buffer>> {
    if calls == [] then Some([])
    else
      var bs := Replay(calls[..|calls| - 1]);
      if bs.None? then None else Do(bs.value, calls[|calls| - 1])
  }

  /** What a table keyed by id would hold. */
  function Table(calls: seq<Call>): map<int, Buffer> {
    if calls == [] then map[]
    else
      var t := Table(calls[..|calls| - 1]);
      match calls[|calls| - 1]
      case Register(b) => t[b.id := b]
      case Unregister(id) => t - {id}
  }

  /** Only ids that are free are registered, and only ids in use unregistered. */
  predicate Proper(calls: seq<Call>) {
    calls == [] ||
    var t := Table(calls[..|calls| - 1]);
    && Proper(calls[..|calls| - 1])
    && match calls[|calls| - 1]
       case Register(b) => b.id !in t
       case Unregister(id) => id in t
  }

  ghost predicate Represents(bs: seq<Buffer>, t: map<int, Buffer>) {
    UniqueIds(bs) && forall id :: Lookup(bs, id) == if id in t then Some(t[id]) else None
  }

  /** Over any history the assertions hold exactly when it is proper, and then the ids are unique and
      a lookup finds exactly what a table would. */
  lemma {:induction false} ListIsTable(calls: seq<Call>)
    ensures Replay(calls).Some? <==> Proper(calls)
    ensures Proper(calls) ==> Represents(Replay(calls).value, Table(calls))
  {
    if calls != [] && Proper(calls[..|calls| - 1]) {
      ListIsTable(calls[..|calls| - 1]);
      var bs, t := Replay(calls[..|calls| - 1]).value, Table(calls[..|calls| - 1]);
      match calls[|calls| - 1]
      case Register(b) => RegisterRepresents(bs, t, b);
      case Unregister(id) => UnregisterRepresents(bs, t, id);
    } else if calls != [] {
      ListIsTable(calls[..|calls| - 1]);
    }
  }

  lemma RegisterRepresents(bs: seq<Buffer>, t: map<int, Buffer>, b: Buffer)
    requires Represents(bs, t)
    ensures Lookup(bs, b.id).None? <==> b.id !in t
    ensures b.id !in t ==> Represents(bs + [b], t[b.id := b])
  {
    if b.id !in t {
      LookupFinds(bs, b.id);
      forall id
        ensures Lookup(bs + [b], id) == if id in t[b.id := b] then Some(t[b.id := b][id]) else None
      {
        LookupAppend(bs, b, id);
      }
    }
  }

  lemma UnregisterRepresents(bs: seq<Buffer>, t: map<int, Buffer>, gone: int)
    requires Represents(bs, t)
    ensures Lookup(bs, gone).Some? <==> gone in t
    ensures Represents(Filtered(bs, Some(gone)), t - {gone})
  {
    FilteredUnique(bs, Some(gone));
    forall id
      ensures Lookup(Filtered(bs, Some(gone)), id) == if id in t - {gone} then Some((t - {gone})[id]) else None
    {
      LookupFiltered(bs, gone, id);
    }
  }

  // ---- The heap ----

  class Node {
    const buffer: Buffer
    var next: Node?

    constructor (buffer: Buffer)
      ensures this.buffer == buffer && next == null
    {
      this.buffer := buffer;
      next := null;
    }
  }

  /** The node at `k`, or `after` past the end. */
  ghost function At(nodes: seq<Node>, k: int, after: Node?): Node? {
    if 0 <= k < |nodes| then nodes[k] else after
  }

  /** From `first` the links lead through `nodes` to `after`. */
  ghost predicate Segment(first: Node?, nodes: seq<Node>, after: Node?)
    reads nodes
  {
    first == At(nodes, 0, after) && forall i :: 0 <= i < |nodes| ==> nodes[i].next == At(nodes, i + 1, after)
  }

  ghost predicate Distinct(nodes: seq<Node>) {
    forall i, j :: 0 <= i < j < |nodes| ==> nodes[i] != nodes[j]
  }

  lemma DistinctExtends(nodes: seq<Node>, last: Node)
    requires Distinct(nodes) && forall i :: 0 <= i < |nodes| ==> nodes[i] != last
    ensures Distinct(nodes + [last])
  {
  }

  lemma SegmentExtends(first: Node?, nodes: seq<Node>, last: Node)
    requires Segment(first, nodes, last)
    ensures Segment(first, nodes + [last], last.next)
  {
    var longer := nodes + [last];
    forall i | 0 <= i < |longer|
      ensures longer[i].next == At(longer, i + 1, last.next)
    {
      if i < |nodes| {
        assert nodes[i].next == At(nodes, i + 1, last);
      }
    }
  }

  ghost function Buffers(nodes: seq<Node>): (bs: seq<Buffer>)
    ensures |bs| == |nodes| && forall i :: 0 <= i < |bs| ==> bs[i] == nodes[i].buffer
  {
    seq(|nodes|, i requires 0 <= i < |nodes| => nodes[i].buffer)
  }

  lemma BuffersExtend(nodes: seq<Node>, last: Node)
    ensures Buffers(nodes + [last]) == Buffers(nodes) + [last.buffer]
  {
  }

  lemma FilteredStep(bs: seq<Buffer>, k: nat, id: Option<int>)
    requires k < |bs|
    ensures Filtered(bs[..k + 1], id) == Filtered(bs[..k], id) + if Matches(bs[k], id) then [] else [bs[k]]
  {
    assert bs[..k + 1][..k] == bs[..k];
  }

  class Handle {
    var head: Node?
    ghost var nodes: seq<Node>

    /** The chain visits exactly `nodes`, each once, and ends: there is no cycle. */
    ghost predicate Valid()
      reads this, nodes
    {
      Segment(head, nodes, null) && Distinct(nodes)
    }

    ghost function Contents(): seq<Buffer>
      reads this
    {
      Buffers(nodes)
    }

    constructor ()
      ensures Valid() && Contents() == []
    {
      head := null;
      nodes := [];
    }

    method FindBuffer(id: int) returns (node: Node?)
      requires Valid()
      ensures node == null <==> Lookup(Contents(), id).None?
      ensures node != null ==> node in nodes && Lookup(Contents(), id) == Some(node.buffer)
    {
      node := head;
      ghost var k := 0;
      while node != null
        invariant k <= |nodes| && node == At(nodes, k, null)
        invariant Lookup(Contents(), id) == Lookup(Contents()[k..], id)
        decreases |nodes| - k
      {
        if node.buffer.id == id {
          return;
        }
        node := node.next;
        assert Contents()[k..][1..] == Contents()[k + 1..];
        k := k + 1;
      }
    }

    /** Walks to the empty link at the end: `last` is the node that owns it, null for the head. */
    method FindEnd() returns (last: Node?)
      requires Valid()
      ensures last == At(nodes, |nodes| - 1, null)
    {
      last := null;
      ghost var k := 0;
      while (if last == null then head else last.next) != null
        invariant k <= |nodes| && last == At(nodes, k - 1, null)
        decreases |nodes| - k
      {
        last := if last == null then head else last.next;
        k := k + 1;
      }
    }

    method AddFrameBuffer(buffer: Buffer)
      requires Valid()
      modifies this, nodes
      ensures Valid() && Contents() == old(Contents()) + [buffer]
      ensures |nodes| > 0 && nodes[..|nodes| - 1] == old(nodes) && fresh(nodes[|nodes| - 1])
    {
      hide Buffers, Segment, Distinct;
      var last := FindEnd();
      var node := new Node(buffer);
      LinkLast(last, node);
      BuffersExtend(nodes, node);
      DistinctExtends(nodes, node);
      nodes := nodes + [node];
    }

    method LinkLast(last: Node?, node: Node)
      requires Valid() && last == At(nodes, |nodes| - 1, null) && node !in nodes && node.next == null
      modifies this`head, nodes
      ensures Segment(head, nodes + [node], null)
    {
      SetLink(last, node, nodes, null);
      SegmentExtends(head, nodes, node);
    }

    /** The link owned by `prev`, the last of `before`, is set; without a node it is the head. */
    method SetLink(prev: Node?, to: Node?, ghost before: seq<Node>, ghost after: Node?)
      requires Distinct(before) && prev == At(before, |before| - 1, null) && Segment(head, before, after)
      modifies this`head, before
      ensures Segment(head, before, to)
    {
      if prev == null {
        head := to;
      } else {
        prev.next := to;
      }
    }

    /** A removal under way: `kept` of the first `k` nodes stay and lead to the rest. */
    ghost predicate Removing(current: Node?, prev: Node?, kept: seq<Node>, all: seq<Node>, k: nat, id: Option<int>)
      reads this, kept, all
    {
      && k <= |all| && current == At(all, k, null)
      && prev == At(kept, |kept| - 1, null)
      && Segment(head, kept, current) && Distinct(kept)
      && (forall i :: 0 <= i < |kept| ==> kept[i] in all)
      && (forall i, j :: 0 <= i < |kept| && k <= j < |all| ==> kept[i] != all[j])
      && (forall i :: k <= i < |all| ==> all[i].next == At(all, i + 1, null))
      && Buffers(kept) == Filtered(Buffers(all)[..k], id)
    }

    /** Unlinks every matching node: `prev` is the node that owns the link to `current`. */
    method RemoveFrameBuffer(id: Option<int>)
      requires Valid()
      modifies this, nodes
      ensures Valid() && Contents() == Filtered(old(Contents()), id)
      ensures id.None? ==> head == null
      ensures forall n :: n in nodes ==> n in old(nodes)
    {
      ghost var all := nodes;
      var current := head;
      var prev: Node? := null;
      ghost var k, kept: seq<Node> := 0, [];
      assert Distinct(all) && Removing(current, prev, kept, all, k, id);
      hide Removing, Segment, Distinct, Buffers, Filtered, At, Matches;
      while current != null
        invariant nodes == all && Distinct(all) && Removing(current, prev, kept, all, k, id)
        invariant forall n :: n in kept ==> n in all
        decreases |all| - k
      {
        current, prev, kept := Visit(current, prev, kept, all, k, id);
        k := k + 1;
      }
      Removed(prev, kept, all, k, id);
      nodes := kept;
    }

    lemma Removed(prev: Node?, kept: seq<Node>, all: seq<Node>, k: nat, id: Option<int>)
      requires Removing(null, prev, kept, all, k, id)
      ensures Segment(head, kept, null) && Distinct(kept) && Buffers(kept) == Filtered(Buffers(all), id)
      ensures forall n :: n in kept ==> n in all
      ensures id.None? ==> head == null
    {
      if id.None? {
        FilteredAll(Buffers(all));
      }
      assert k == |all|;
      assert Buffers(all)[..k] == Buffers(all);
    }

    method Visit(current: Node, prev: Node?, ghost kept: seq<Node>, ghost all: seq<Node>, ghost k: nat,
                 id: Option<int>)
      returns (next: Node?, newPrev: Node?, ghost newKept: seq<Node>)
      requires Distinct(all) && Removing(current, prev, kept, all, k, id)
      modifies this`head, kept
      ensures k < |all| && Removing(next, newPrev, newKept, all, k + 1, id)
      ensures forall n :: n in newKept ==> n in all
    {
      next, newPrev, newKept := current.next, prev, kept;
      if id.None? || current.buffer.id == id.value {
        Drop(current, next, prev, kept, all, k, id);
      } else {
        Keep(current, prev, kept, all, k, id);
        newPrev := current;
        newKept := kept + [current];
      }
    }

    method Drop(current: Node, next: Node?, prev: Node?, ghost kept: seq<Node>, ghost all: seq<Node>, ghost k: nat,
                ghost id: Option<int>)
      requires Distinct(all) && Removing(current, prev, kept, all, k, id)
      requires next == current.next && Matches(current.buffer, id)
      modifies this`head, kept
      ensures Removing(next, prev, kept, all, k + 1, id)
    {
      FilteredStep(Buffers(all), k, id);
      SetLink(prev, next, kept, current);
    }

    lemma Keep(current: Node, prev: Node?, kept: seq<Node>, all: seq<Node>, k: nat, id: Option<int>)
      requires Distinct(all) && Removing(current, prev, kept, all, k, id) && !Matches(current.buffer, id)
      ensures Removing(current.next, current, kept + [current], all, k + 1, id)
    {
      FilteredStep(Buffers(all), k, id);
      SegmentExtends(head, kept, current);
      BuffersExtend(kept, current);
      DistinctExtends(kept, current);
    }

    /** `ok` says that the assertions held; otherwise nothing was changed. */
    method RegisterBuffer(buffer: Buffer) returns (ok: bool)
      requires Valid()
      modifies this, nodes
      ensures Valid() && ok == Do(old(Contents()), Register(buffer)).Some?
      ensures Contents() == if ok then Do(old(Contents()), Register(buffer)).value else old(Contents())
      ensures if ok then |nodes| > 0 && nodes[..|nodes| - 1] == old(nodes) && fresh(nodes[|nodes| - 1])
              else nodes == old(nodes)
    {
      var found := FindBuffer(buffer.id);
      ok := found == null;
      if ok {
        AddFrameBuffer(buffer);
      }
    }

    method UnregisterBuffer(bufferId: int) returns (ok: bool)
      requires Valid()
      modifies this, nodes
      ensures Valid() && ok == Do(old(Contents()), Unregister(bufferId)).Some?
      ensures Contents() == if ok then Do(old(Contents()), Unregister(bufferId)).value else old(Contents())
      ensures forall n :: n in nodes ==> n in old(nodes)
    {
      var bufferToRemove := FindBuffer(bufferId);
      ok := bufferToRemove != null;
      if ok {
        RemoveFrameBuffer(Some(bufferId));
      }
    }
  }
}
