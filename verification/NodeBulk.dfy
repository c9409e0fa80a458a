/** The bulk layout of map nodes: all contents as big-endian 16-bit numbers, then all param1 bytes, then all param2. */
module NodeBulk {
  import opened MachineIntegers

  datatype MapNode = MapNode(param0: u16, param1: u8, param2: u8)

  const CONTENT_WIDTH := 2
  const PARAMS_WIDTH := 2

  function HighByte(n: u16): u8 {
    n / 0x100
  }

  function LowByte(n: u16): u8 {
    n % 0x100
  }

  function FromBytes(high: u8, low: u8): u16 {
    high * 0x100 + low
  }

  /** What a content number is written as. A missing entry of a non-empty table reads as 0. */
  function Jump(jumper: map<u16, u16>, content: u16): u16 {
    if jumper == map[] then content
    else if content in jumper then jumper[content] else 0
  }

  /** The layout: which bytes of the buffer hold node `i` of `n`. */
  predicate Holds(buf: seq<u8>, n: nat, i: nat, node: MapNode)
    requires |buf| == 4 * n && i < n
  {
    && (buf[2 * i] as int) * 256 + buf[2 * i + 1] == node.param0
    && buf[2 * n + i] == node.param1
    && buf[3 * n + i] == node.param2
  }

  ghost predicate IsBulk(buf: seq<u8>, nodes: seq<MapNode>, jumper: map<u16, u16>) {
    && |buf| == 4 * |nodes|
    && forall i :: 0 <= i < |nodes| ==> Holds(buf, |nodes|, i, nodes[i].(param0 := Jump(jumper, nodes[i].param0)))
  }

  /** The nodes and the substitution table determine every byte. */
  lemma BulkUnique(a: seq<u8>, b: seq<u8>, nodes: seq<MapNode>, jumper: map<u16, u16>)
    requires IsBulk(a, nodes, jumper) && IsBulk(b, nodes, jumper)
    ensures a == b
  {
    var n := |nodes|;
    forall k | 0 <= k < |a| ensures a[k] == b[k] {
      if k < 2 * n {
        var i := k / 2;
        assert Holds(a, n, i, nodes[i].(param0 := Jump(jumper, nodes[i].param0)));
        assert Holds(b, n, i, nodes[i].(param0 := Jump(jumper, nodes[i].param0)));
        BytesUnique(a[2 * i], a[2 * i + 1], b[2 * i], b[2 * i + 1]);
      } else {
        var i := if k < 3 * n then k - 2 * n else k - 3 * n;
        assert Holds(a, n, i, nodes[i].(param0 := Jump(jumper, nodes[i].param0)));
        assert Holds(b, n, i, nodes[i].(param0 := Jump(jumper, nodes[i].param0)));
      }
    }
  }

  lemma BytesUnique(high: u8, low: u8, high': u8, low': u8)
    requires FromBytes(high, low) == FromBytes(high', low')
    ensures high == high' && low == low'
  {}

  /** A buffer is the layout of at most one sequence of nodes. */
  lemma NodesUnique(buf: seq<u8>, a: seq<MapNode>, b: seq<MapNode>)
    requires IsBulk(buf, a, map[]) && IsBulk(buf, b, map[])
    ensures a == b
  {
    forall i | 0 <= i < |a| ensures a[i] == b[i] {
      assert Holds(buf, |a|, i, a[i].(param0 := Jump(map[], a[i].param0)));
      assert Holds(buf, |a|, i, b[i].(param0 := Jump(map[], b[i].param0)));
    }
  }

  method WriteU16(data: array<u8>, at: nat, n: u16)
    requires at + 1 < data.Length
    modifies data
    ensures data[..] == old(data[..])[at := HighByte(n)][at + 1 := LowByte(n)]
  {
    data[at] := HighByte(n);
    data[at + 1] := LowByte(n);
  }

  /** `serializeBulk` up to the compression of the buffer. */
  method SerializeBulk(nodes: array<MapNode>, jumper: map<u16, u16>) returns (databuf: array<u8>)
    ensures fresh(databuf) && IsBulk(databuf[..], nodes[..], jumper)
  {
    var n := nodes.Length;
    databuf := new u8[n * (CONTENT_WIDTH + PARAMS_WIDTH)];
    var start1, start2 := CONTENT_WIDTH * n, (CONTENT_WIDTH + 1) * n;
    for i := 0 to n
      invariant forall k :: 0 <= k < i ==> Holds(databuf[..], n, k, nodes[k].(param0 := Jump(jumper, nodes[k].param0)))
    {
      hide Holds, Written;
      WriteOne(databuf[..], n, i, nodes[i].(param0 := Jump(jumper, nodes[i].param0)));
      WriteNode(databuf, n, start1, start2, i, nodes[i].(param0 := Jump(jumper, nodes[i].param0)));
    }
  }

  method WriteNode(databuf: array<u8>, ghost n: nat, start1: nat, start2: nat, i: nat, node: MapNode)
    requires databuf.Length == 4 * n && i < n && start1 == 2 * n && start2 == 3 * n
    modifies databuf
    ensures databuf[..] == Written(old(databuf[..]), n, i, node)
  {
    WriteU16(databuf, i * 2, node.param0);
    databuf[start1 + i] := node.param1;
    databuf[start2 + i] := node.param2;
  }

  function Written(buf: seq<u8>, n: nat, i: nat, node: MapNode): seq<u8>
    requires |buf| == 4 * n && i < n
  {
    buf[i * 2 := HighByte(node.param0)][i * 2 + 1 := LowByte(node.param0)][2 * n + i := node.param1][3 * n
        + i := node.param2]
  }

  /** Writing one node makes the buffer hold it and disturbs no other. */
  lemma WriteOne(buf: seq<u8>, n: nat, i: nat, node: MapNode)
    requires |buf| == 4 * n && i < n
    ensures Holds(Written(buf, n, i, node), n, i, node)
    ensures forall k, other ::
        0 <= k < n && k != i && Holds(buf, n, k, other) ==> Holds(Written(buf, n, i, node), n, k, other)
  {}

  /** `deSerializeBulk` for two-byte contents, after decompression: refuses a buffer of the wrong length. */
  method DeSerializeBulk(databuf: seq<u8>, nodes: array<MapNode>) returns (ok: bool)
    modifies nodes
    ensures ok == (|databuf| == 4 * nodes.Length)
    ensures if ok then IsBulk(databuf, nodes[..], map[]) else nodes[..] == old(nodes[..])
  {
    var n := nodes.Length;
    if |databuf| != n * (CONTENT_WIDTH + PARAMS_WIDTH) { return false; }
    for i := 0 to n
      invariant forall k :: 0 <= k < i ==> nodes[k].param0 == FromBytes(databuf[2 * k], databuf[2 * k + 1])
    {
      nodes[i] := nodes[i].(param0 := FromBytes(databuf[i * 2], databuf[i * 2 + 1]));
    }
    var start1 := CONTENT_WIDTH * n;
    for i := 0 to n
      invariant forall k :: 0 <= k < n ==> nodes[k].param0 == FromBytes(databuf[2 * k], databuf[2 * k + 1])
      invariant forall k :: 0 <= k < i ==> nodes[k].param1 == databuf[2 * n + k]
    {
      nodes[i] := nodes[i].(param1 := databuf[start1 + i]);
    }
    var start2 := (CONTENT_WIDTH + 1) * n;
    for i := 0 to n
      invariant forall k :: 0 <= k < n ==> nodes[k].param0 == FromBytes(databuf[2 * k], databuf[2 * k + 1])
      invariant forall k :: 0 <= k < n ==> nodes[k].param1 == databuf[2 * n + k]
      invariant forall k :: 0 <= k < i ==> nodes[k].param2 == databuf[3 * n + k]
    {
      nodes[i] := nodes[i].(param2 := databuf[start2 + i]);
    }
    ok := true;
  }

  /** What was written reads back: the same nodes, with their contents sent through the substitution table. */
  lemma RoundTrip(buf: seq<u8>, nodes: seq<MapNode>, jumper: map<u16, u16>, back: seq<MapNode>)
    requires IsBulk(buf, nodes, jumper) && IsBulk(buf, back, map[])
    ensures |back| == |nodes| && forall i ::
        0 <= i < |nodes| ==> back[i] == nodes[i].(param0 := Jump(jumper, nodes[i].param0))
    ensures jumper == map[] ==> back == nodes
    ensures jumper != map[] ==> forall i :: 0 <= i < |nodes| ==>
              back[i].param0 == if nodes[i].param0 in jumper then jumper[nodes[i].param0] else 0
  {
    var jumped := seq(|nodes|, i requires 0 <= i < |nodes| => nodes[i].(param0 := Jump(jumper, nodes[i].param0)));
    NodesUnique(buf, jumped, back);
  }
}
