/** The writer and the reader as they run: buffers that grow and a cursor that moves. */
module DtcBuffers {
  import opened DtcTree
  import opened DtcWrite
  import opened DtcRead
  import opened Wrappers

  /** The structure block and the strings block under construction. */
  class Flattener {
    var dtbuf: Bytes
    var strbuf: Bytes

    constructor ()
      ensures Buffers() == Bufs([], [])
    {
      dtbuf, strbuf := [], [];
    }

    ghost function Buffers(): Bufs
      reads this
    {
      Bufs(dtbuf, strbuf)
    }

    method BinEmitCell(val: nat)
      modifies `dtbuf
      ensures dtbuf == EmitCell(old(dtbuf), val)
    {
      dtbuf := dtbuf + Cell(val);
    }

    method BinEmitString(s: Bytes, len: nat)
      requires len <= |s|
      modifies `dtbuf
      ensures dtbuf == EmitString(old(dtbuf), s, len)
    {
      var n := if len == 0 then |s| else len;
      assert s[..|s|] == s;
      dtbuf := dtbuf + s[..n];
      dtbuf := dtbuf + [0];
    }

    method BinEmitAlign(a: nat)
      requires a > 0
      modifies `dtbuf
      ensures dtbuf == EmitAlign(old(dtbuf), a)
    {
      var newlen := Align(|dtbuf|, a);
      dtbuf := dtbuf + Zeroes(newlen - |dtbuf|);
    }

    method BinEmitData(d: Bytes)
      modifies `dtbuf
      ensures dtbuf == old(dtbuf) + d
    {
      dtbuf := dtbuf + d;
    }

    /** The first offset in the table at which the name can be read, after adding the name at
        the end if there is none. */
    method InsertString(s: Bytes) returns (i: nat)
      modifies `strbuf
      ensures i == StringTableOffset(old(strbuf), s)
      ensures strbuf == StringTableInsert(old(strbuf), s)
    {
      i := 0;
      while i < |strbuf|
        invariant i <= |strbuf| && FindString(strbuf, s, i) == FindString(strbuf, s, 0)
      {
        if StringAt(strbuf, i, s) { return; }
        i := i + 1;
      }
      strbuf := strbuf + s + [0];
    }

    method EmitProp(prop: Property, v: Version)
      modifies this
      ensures Buffers() == EmitProperty(old(Buffers()), prop.name, prop.value, v)
    {
      var nameoff := InsertString(prop.name);
      BinEmitCell(PROP);
      BinEmitCell(|prop.value|);
      BinEmitCell(nameoff);
      if v.varAlign && |prop.value| >= 8 { BinEmitAlign(8); }
      BinEmitData(prop.value);
      BinEmitAlign(4);
    }

    method EmitBaseName(name: Bytes, v: Version)
      modifies `dtbuf
      ensures dtbuf == EmitNameValue(old(dtbuf), name, v)
    {
      var len := BaseNameLen(name);
      if v.varAlign && len + 1 >= 8 { BinEmitAlign(8); }
      BinEmitString(name, len);
      BinEmitAlign(4);
    }

    /** The head of the added name property. */
    method EmitNameHead(len: nat)
      modifies this
      ensures dtbuf == EmitPropHeader(old(dtbuf), len, StringTableOffset(old(strbuf), NAME))
      ensures strbuf == StringTableInsert(old(strbuf), NAME)
    {
      BinEmitCell(PROP);
      BinEmitCell(len);
      var nameoff := InsertString(NAME);
      BinEmitCell(nameoff);
    }

    method EmitNamePropOf(tree: Node, v: Version)
      requires v.nameProps && !HasLiveName(tree.props)
      modifies this
      ensures Buffers() == EmitNameProp(old(Buffers()), tree, v)
    {
      EmitNameHead(BaseNameLen(tree.name) + 1);
      EmitBaseName(tree.name, v);
    }

    method EmitLiveProps(props: seq<Property>, v: Version) returns (seenNameProp: bool)
      modifies this
      ensures seenNameProp == HasLiveName(props)
      ensures Buffers() == EmitProps(old(Buffers()), props, v)
    {
      seenNameProp := false;
      assert props[0..] == props;
      for i := 0 to |props|
        invariant (seenNameProp || HasLiveName(props[i..])) == HasLiveName(props)
        invariant EmitProps(Buffers(), props[i..], v) == EmitProps(old(Buffers()), props, v)
      {
        var prop := props[i];
        assert props[i..][1..] == props[i + 1..];
        if !prop.deleted {
          if prop.name == NAME { seenNameProp := true; }
          EmitProp(prop, v);
        }
      }
    }

    method FlattenNode(tree: Node, parent: Bytes, v: Version)
      modifies this
      ensures Buffers() == FlattenTree(old(Buffers()), tree, parent, v)
      decreases tree
    {
      if tree.deleted { return; }
      var fullpath := JoinPath(parent, tree.name);
      BinEmitCell(BEGIN_NODE);
      if v.fullPath { BinEmitString(fullpath, 0); } else { BinEmitString(tree.name, 0); }
      BinEmitAlign(4);
      var seenNameProp := EmitLiveProps(tree.props, v);
      if v.nameProps && !seenNameProp { EmitNamePropOf(tree, v); }
      ghost var done := FlattenTrees(Buffers(), tree.children, fullpath, v);
      assert tree.children[0..] == tree.children;
      for i := 0 to |tree.children|
        invariant FlattenTrees(Buffers(), tree.children[i..], fullpath, v) == done
      {
        assert tree.children[i..][1..] == tree.children[i + 1..];
        FlattenNode(tree.children[i], fullpath, v);
      }
      BinEmitCell(END_NODE);
    }
  }

  /** The cursor reading gives the value and the new position, or there is an error. */
  ghost predicate Reads<T>(want: Option<(T, nat)>, got: Option<T>, ptr: nat) {
    if want.None? then got.None? else got == Some(want.value.0) && ptr == want.value.1
  }

  /** A buffer being read; None stands for the error exit. */
  class Inbuf {
    const base: Bytes
    var ptr: nat

    constructor (base: Bytes)
      ensures this.base == base && ptr == 0
    {
      this.base := base;
      ptr := 0;
    }

    method Chunk(len: nat) returns (c: Option<Bytes>)
      modifies `ptr
      ensures c == (if old(ptr) + len > |base| then None else Some(base[old(ptr)..old(ptr) + len]))
      ensures ptr == if c.None? then old(ptr) else old(ptr) + len
    {
      if ptr + len > |base| { return None; }
      c := Some(base[ptr..ptr + len]);
      ptr := ptr + len;
    }

    method Word() returns (w: Option<nat>)
      modifies `ptr
      ensures Reads(ReadWord(base, old(ptr)), w, ptr)
    {
      if ptr % 4 != 0 { return None; }
      var c := Chunk(4);
      if c.None? { return None; }
      w := Some(CellValue(c.value));
    }

    method AlignTo(a: nat) returns (ok: bool)
      requires a > 0
      modifies `ptr
      ensures ok <==> Realign(base, old(ptr), a).Some?
      ensures ok ==> ptr == Realign(base, old(ptr), a).value
    {
      ptr := Align(ptr, a);
      ok := ptr <= |base|;
    }

    method String() returns (s: Option<Bytes>)
      modifies `ptr
      ensures Reads(ReadString(base, old(ptr)), s, ptr)
    {
      var p := ptr;
      while true
        invariant FindNul(base, p) == FindNul(base, ptr) && ptr == old(ptr) <= p
        decreases |base| - p
      {
        if p >= |base| { return None; }
        if base[p] == 0 { break; }
        p := p + 1;
      }
      var found := base[ptr..p];
      ptr := p + 1;
      var ok := AlignTo(4);
      s := if ok then Some(found) else None;
    }

    method Data(len: nat) returns (d: Option<Bytes>)
      modifies `ptr
      ensures Reads(ReadData(base, old(ptr), len), d, ptr)
    {
      if len == 0 { return Some([]); }
      d := Chunk(len);
      if d.None? { return; }
      var ok := AlignTo(4);
      if !ok { d := None; }
    }

    method StringTable(offset: nat) returns (s: Option<Bytes>)
      ensures s == ReadStringTable(base, offset)
    {
      var p := offset;
      while true
        invariant FindNul(base, p) == FindNul(base, offset) && offset <= p
        decreases |base| - p
      {
        if p >= |base| { return None; }
        if base[p] == 0 { break; }
        p := p + 1;
      }
      s := Some(base[offset..p]);
    }

    method PropertyOf(strbuf: Inbuf, v: Version) returns (p: Option<Property>)
      modifies `ptr
      ensures Reads(ReadProperty(base, old(ptr), strbuf.base, v), p, ptr)
    {
      p := None;
      var proplen := Word();
      if proplen.None? { return; }
      var stroff := Word();
      if stroff.None? { return; }
      var name := strbuf.StringTable(stroff.value);
      if name.None? { return; }
      if v.varAlign && proplen.value >= 8 {
        var ok := AlignTo(8);
        if !ok { return; }
      }
      var val := Data(proplen.value);
      if val.None? { return; }
      p := Some(Property(name.value, false, val.value));
    }

    method UnflattenNode(strbuf: Inbuf, parent: Bytes, v: Version) returns (tree: Option<Node>)
      modifies `ptr
      ensures Reads(UnflattenTree(base, old(ptr), strbuf.base, parent, v), tree, ptr)
      decreases if ptr <= |base| then |base| - ptr else 0
    {
      tree := None;
      var flatname := String();
      if flatname.None? { return; }
      var name := if v.fullPath then NodeNameFromPath(parent, flatname.value) else flatname;
      if name.None? { return; }
      var node := Node(name.value, false, [], []);
      ghost var want := UnflattenBody(base, ptr, strbuf.base, flatname.value, v, node);
      var val := 0;
      while val != END_NODE
        invariant old(ptr) < ptr <= |base|
        invariant if val == END_NODE then want == Some((node, ptr))
                  else want == UnflattenBody(base, ptr, strbuf.base, flatname.value, v, node)
        decreases |base| - ptr
      {
        var tag := Word();
        if tag.None? { return; }
        val := tag.value;
        if val == PROP {
          var prop := PropertyOf(strbuf, v);
          if prop.None? { return; }
          node := node.(props := node.props + [prop.value]);
        } else if val == BEGIN_NODE {
          var child := UnflattenNode(strbuf, flatname.value, v);
          if child.None? { return; }
          node := node.(children := node.children + [child.value]);
        } else if val != END_NODE && val != NOP {
          return;
        }
      }
      tree := Some(node);
    }
  }
}
