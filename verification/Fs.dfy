/** The remountable read-only in-memory filesystem. Nodes are immutable values:
    a `kfs_node` pointer is modelled by the node it points to. */
module Fs {
  import opened Machine
  import opened Lib

  const MODE_FILE: Word32 := 0x8000
  const STAT_SIZE: nat := 16

  /** `None` stands for a null pointer; `path` is the buffer holding a C string. */
  datatype Node = Node(path: Option<seq<Byte>>, data: Option<seq<Byte>>, size: Word, mode: Word32)

  predicate IsValid(n: Node) {
    n.path.Some? && n.mode == MODE_FILE && (n.size > 0 ==> n.data.Some?)
  }

  /** What the C code needs to look at a valid node without leaving its buffers. */
  predicate Readable(n: Node) {
    IsValid(n) ==> 0 in n.path.value && (n.size > 0 ==> n.size <= |n.data.value|)
  }

  predicate AllReadable(nodes: seq<Node>) {
    forall i | 0 <= i < |nodes| :: Readable(nodes[i])
  }

  function Contents(n: Node): (bytes: seq<Byte>)
    requires IsValid(n) && Readable(n)
    ensures |bytes| == n.size
    ensures forall i | 0 <= i < n.size :: bytes[i] == n.data.value[i]
  {
    if n.size == 0 then [] else n.data.value[..n.size]
  }

  predicate Named(n: Node, path: seq<Byte>)
    requires Readable(n)
  {
    IsValid(n) && CString(n.path.value) == path
  }

  /** The node a path names: the first valid one whose name is exactly those bytes.
      The empty path names nothing. */
  function Find(nodes: seq<Node>, path: seq<Byte>): (r: Option<Node>)
    requires AllReadable(nodes)
    ensures r.Some? ==> Readable(r.value) && Named(r.value, path)
  {
    if path == [] || nodes == [] then None
    else if Named(nodes[0], path) then Some(nodes[0])
    else Find(nodes[1..], path)
  }

  /** Spelled out on the fields: a regular file, with data unless it is empty, whose
      path buffer starts with exactly the bytes of `path` and a NUL. */
  predicate Answers(n: Node, path: seq<Byte>) {
    && n.path.Some? && n.mode == 0x8000 && (n.data.Some? || n.size == 0)
    && |path| < |n.path.value| && n.path.value[..|path|] == path && n.path.value[|path|] == 0
    && forall i | 0 <= i < |path| :: path[i] != 0
  }

  lemma NamedIsAnswers(n: Node, path: seq<Byte>)
    requires Readable(n)
    ensures Named(n, path) <==> Answers(n, path)
  {
    if IsValid(n) {
      var text := n.path.value;
      var len := StrLen(text);
      if Answers(n, path) {
        assert forall i | 0 <= i < |path| :: text[i] == text[..|path|][i];
        assert len == |path|;
      }
    }
  }

  /** `Find` returns the least index that answers to the path, and nothing exactly when
      the path is empty or no node does. A path with an embedded NUL names nothing. */
  lemma {:induction false} FindExact(nodes: seq<Node>, path: seq<Byte>)
    requires AllReadable(nodes)
    ensures Find(nodes, path).Some? ==>
              path != [] && exists i | 0 <= i < |nodes| ::
                nodes[i] == Find(nodes, path).value && Answers(nodes[i], path) &&
                forall j | 0 <= j < i :: !Answers(nodes[j], path)
    ensures Find(nodes, path).None? <==> path == [] || forall i | 0 <= i < |nodes| :: !Answers(nodes[i], path)
    ensures 0 in path ==> Find(nodes, path).None?
  {
    if path == [] || nodes == [] {
    } else {
      NamedIsAnswers(nodes[0], path);
      if !Answers(nodes[0], path) {
        var rest := nodes[1..];
        FindExact(rest, path);
        assert forall j | 1 <= j < |nodes| :: nodes[j] == rest[j - 1];
        if Find(rest, path).Some? {
          var i :| 0 <= i < |rest| && rest[i] == Find(rest, path).value && Answers(rest[i], path) &&
                   forall j | 0 <= j < i :: !Answers(rest[j], path);
          assert nodes[i + 1] == rest[i];
        } else {
          assert forall i | 0 <= i < |nodes| :: !Answers(nodes[i], path);
        }
      }
    }
  }

  function ValidOnly(nodes: seq<Node>): (r: seq<Node>)
    ensures AllReadable(nodes) ==> AllReadable(r)
  {
    if nodes == [] then []
    else
      var rest := ValidOnly(nodes[1..]);
      assert AllReadable(nodes) ==> AllReadable(nodes[1..]) && Readable(nodes[0]);
      if IsValid(nodes[0]) then [nodes[0]] + rest else rest
  }

  /** Invalid nodes, wherever they sit in the table, never change what a path names. */
  lemma {:induction false} InvalidNodesNeverShadow(nodes: seq<Node>, path: seq<Byte>)
    requires AllReadable(nodes)
    ensures Find(nodes, path) == Find(ValidOnly(nodes), path)
  {
    if path == [] || nodes == [] {
    } else {
      InvalidNodesNeverShadow(nodes[1..], path);
      if IsValid(nodes[0]) {
        assert ValidOnly(nodes)[1..] == ValidOnly(nodes[1..]);
      }
    }
  }

  /** The bytes a read of `len` at `offset` delivers. */
  function ReadBytes(node: Option<Node>, offset: nat, len: nat): (bytes: seq<Byte>)
    requires node.Some? ==> Readable(node.value)
    ensures |bytes| <= len
  {
    if node.None? || !IsValid(node.value) || offset >= node.value.size then []
    else Contents(node.value)[offset..offset + Min(len, node.value.size - offset)]
  }

  /** Memory image of the named fields of `struct kfs_stat`: size, mode, is_file. */
  function StatImage(size: Word, mode: Word32, isFile: bool): (bytes: seq<Byte>)
    ensures |bytes| == 13
  {
    LittleEndian(size, 8) + LittleEndian(mode, 4) + [if isFile then 1 else 0]
  }

  /** Reading the three fields back from the image gives the values stored. */
  lemma StatImageRoundTrip(size: Word, mode: Word32, isFile: bool)
    ensures var image := StatImage(size, mode, isFile);
            FromLittleEndian(image[..8]) == size && FromLittleEndian(image[8..12]) == mode &&
            (image[12] == 1 <==> isFile)
  {
    var image := StatImage(size, mode, isFile);
    assert image[..8] == LittleEndian(size, 8);
    assert image[8..12] == LittleEndian(mode, 4);
    assert Pow256(8) == WORD && Pow256(4) == HALF;
    LittleEndianRoundTrip(size, 8);
    LittleEndianRoundTrip(mode, 4);
  }

  /** What a read through a handle leaves behind: memory, and the handle's cursor. */
  function HandleRead(ram: seq<Byte>, node: Option<Node>, offset: nat, dst: nat, len: nat): (seq<Byte>, nat)
    requires node.Some? ==> Readable(node.value)
    requires len > 0 ==> dst + len <= |ram|
  {
    var bytes := ReadBytes(node, offset, len);
    (Splice(ram, dst, bytes), offset + |bytes|)
  }

  /** The record `kfs_stat` stores for the C string in `text`: all zero if it names nothing. */
  function StatRecord(nodes: seq<Node>, text: seq<Byte>): (bytes: seq<Byte>)
    requires AllReadable(nodes) && 0 in text
    ensures |bytes| == 13
  {
    var node := Find(nodes, CString(text));
    if node.Some? then StatImage(node.value.size, MODE_FILE, true) else StatImage(0, 0, false)
  }

  lemma {:induction false} ZeroBytes(width: nat)
    ensures forall i | 0 <= i < width :: LittleEndian(0, width)[i] == 0
  {
    if width > 0 {
      ZeroBytes(width - 1);
    }
  }

  /** The record of a missing file is thirteen zero bytes; that of a file starts with a
      size that reads back, and ends with true. */
  lemma StatRecordExact(nodes: seq<Node>, text: seq<Byte>)
    requires AllReadable(nodes) && 0 in text
    ensures var record := StatRecord(nodes, text);
            match Find(nodes, CString(text))
            case None => forall i | 0 <= i < 13 :: record[i] == 0
            case Some(node) => FromLittleEndian(record[..8]) == node.size && record[12] == 1
  {
    ZeroBytes(8);
    ZeroBytes(4);
    match Find(nodes, CString(text))
    case None =>
    case Some(node) => StatImageRoundTrip(node.size, MODE_FILE, true);
  }

  datatype FsError = FsOk | FsInval | FsNoEnt

  /** `kfs_read_node`: copies into `ram` at `dst`. */
  method ReadNode(node: Option<Node>, offset: nat, ram: array<Byte>, dst: nat, len: nat)
    returns (copied: nat)
    requires node.Some? ==> Readable(node.value)
    requires len > 0 ==> dst + len <= ram.Length
    modifies ram
    ensures copied == |ReadBytes(node, offset, len)|
    ensures ram[..] == Splice(old(ram[..]), dst, ReadBytes(node, offset, len))
  {
    if node.None? || !IsValid(node.value) || offset >= node.value.size {
      return 0;
    }
    var available := node.value.size - offset;
    copied := if len < available then len else available;
    ghost var bytes := ReadBytes(node, offset, len);
    for i := 0 to copied
      invariant forall a | 0 <= a < ram.Length ::
                  ram[a] == if dst <= a < dst + i then bytes[a - dst] else old(ram[a])
    {
      assert bytes[i] == node.value.data.value[offset + i];
      ram[dst + i] := node.value.data.value[offset + i];
    }
    assert ram[..] == Splice(old(ram[..]), dst, bytes);
  }

  method StoreStat(ram: array<Byte>, at: nat, size: Word, mode: Word32, isFile: bool)
    requires at + STAT_SIZE <= ram.Length
    modifies ram
    ensures ram[..] == Splice(old(ram[..]), at, StatImage(size, mode, isFile))
  {
    var image := StatImage(size, mode, isFile);
    forall i | 0 <= i < |image| {
      ram[at + i] := image[i];
    }
  }

  /** `kfs_stat_node`: the named fields are stored, the padding bytes are not. */
  method StatNode(node: Node, ram: array<Byte>, at: nat) returns (e: FsError)
    requires at + STAT_SIZE <= ram.Length
    modifies ram
    ensures e == if IsValid(node) then FsOk else FsInval
    ensures ram[..] == if e == FsOk then Splice(old(ram[..]), at, StatImage(node.size, node.mode, true))
                       else old(ram[..])
  {
    if !IsValid(node) {
      return FsInval;
    }
    StoreStat(ram, at, node.size, node.mode, true);
    e := FsOk;
  }

  /** The nodes lookups can see. */
  function Visible(nodes: Option<seq<Node>>, count: nat): seq<Node> {
    if nodes.Some? && count <= |nodes.value| then nodes.value[..count] else []
  }

  class Handle {
    var node: Option<Node>
    var offset: nat

    constructor ()
      ensures node == None && offset == 0
    {
      node, offset := None, 0;
    }
  }

  class FileSystem {
    var mountedNodes: Option<seq<Node>>
    var mountedCount: nat

    constructor ()
      ensures Valid() && Mounted() == []
    {
      mountedNodes, mountedCount := None, 0;
    }

    ghost predicate Valid()
      reads this
    {
      (mountedNodes.Some? ==> mountedCount <= |mountedNodes.value|) && AllReadable(Mounted())
    }

    function Mounted(): seq<Node>
      reads this
    {
      Visible(mountedNodes, mountedCount)
    }

    method Mount(nodes: Option<seq<Node>>, count: nat)
      requires nodes.Some? ==> count <= |nodes.value|
      requires AllReadable(Visible(nodes, count))
      modifies this
      ensures Valid() && Mounted() == if nodes.Some? then nodes.value[..count] else []
    {
      mountedNodes := nodes;
      mountedCount := count;
    }

    method Lookup(path: seq<Byte>) returns (r: Option<Node>)
      requires Valid()
      ensures r == Find(Mounted(), path)
    {
      if path == [] || mountedNodes.None? {
        return None;
      }
      var nodes := mountedNodes.value;
      for i := 0 to mountedCount
        invariant Find(Mounted(), path) == Find(Mounted()[i..], path)
      {
        var node := nodes[i];
        assert node == Mounted()[i] && Mounted()[i..][1..] == Mounted()[i + 1..];
        if IsValid(node) {
          var len := KStrlen(node.path.value);
          if len == |path| {
            var equal := KMemEqual(node.path.value, path, len);
            assert path[..len] == path;
            if equal {
              return Some(node);
            }
          }
        }
      }
      return None;
    }

    /** `kfs_open` on the C string stored in `path`. */
    method Open(path: seq<Byte>, handle: Handle) returns (e: FsError)
      requires Valid() && 0 in path
      modifies handle
      ensures handle.node == Find(Mounted(), CString(path)) && handle.offset == 0
      ensures e == if handle.node.Some? then FsOk else FsNoEnt
    {
      var len := KStrlen(path);
      var node := Lookup(path[..len]);
      handle.node := node;
      handle.offset := 0;
      e := if node.None? then FsNoEnt else FsOk;
    }

    /** `kfs_read`: advances the handle by what was delivered. */
    method Read(handle: Handle, ram: array<Byte>, dst: nat, len: nat) returns (e: FsError, copied: nat)
      requires Valid()
      requires handle.node.Some? ==> Readable(handle.node.value)
      requires len > 0 ==> dst + len <= ram.Length
      modifies handle, ram
      ensures handle.node == old(handle.node)
      ensures e == if handle.node.Some? && IsValid(handle.node.value) then FsOk else FsInval
      ensures (ram[..], handle.offset) == HandleRead(old(ram[..]), handle.node, old(handle.offset), dst, len)
      ensures copied == handle.offset - old(handle.offset)
    {
      copied := 0;
      if handle.node.None? || !IsValid(handle.node.value) {
        return FsInval, 0;
      }
      copied := ReadNode(handle.node, handle.offset, ram, dst, len);
      handle.offset := handle.offset + copied;
      e := FsOk;
    }

    /** `kfs_stat`: a missing file reports an all-zero record. */
    method Stat(path: seq<Byte>, ram: array<Byte>, at: nat) returns (e: FsError)
      requires Valid() && 0 in path
      requires at + STAT_SIZE <= ram.Length
      modifies ram
      ensures e == if Find(Mounted(), CString(path)).Some? then FsOk else FsNoEnt
      ensures ram[..] == Splice(old(ram[..]), at, StatRecord(Mounted(), path))
    {
      var len := KStrlen(path);
      var node := Lookup(path[..len]);
      if node.None? {
        StoreStat(ram, at, 0, 0, false);
        return FsNoEnt;
      }
      e := StatNode(node.value, ram, at);
    }
  }
}
