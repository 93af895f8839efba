/** The output file of recordmcount: the mapped input with a buffer behind it, written as one. */
module RecordmcountFile {
  import opened Wrappers

  type Byte = x: int | 0 <= x < 256
  type Bytes = seq<Byte>

  /** A byte of the file, or none where nothing was ever written. */
  type Image = seq<Option<Byte>>

  function Cells(b: Bytes): (c: Image)
    ensures |c| == |b| && forall i :: 0 <= i < |b| ==> c[i] == Some(b[i])
  {
    seq(|b|, i requires 0 <= i < |b| => Some(b[i]))
  }

  /** One growable file: writing at a position, with a gap if it lies behind the end. */
  function Written(img: Image, pos: nat, buf: Bytes): (r: Image)
    ensures |r| == if pos + |buf| > |img| then pos + |buf| else |img|
  {
    seq(if pos + |buf| > |img| then pos + |buf| else |img|, i requires 0 <= i =>
      if pos <= i < pos + |buf| then Some(buf[i - pos]) else if i < |img| then img[i] else None)
  }

  datatype Whence = Set | Cur | End

  /** The target of a seek; from the end the offset counts backwards. */
  function Target(size: nat, ptr: nat, offset: int, whence: Whence): int {
    match whence
    case Set => offset
    case Cur => ptr + offset
    case End => size - offset
  }

  class OutFile {
    /** The file as it was mapped. */
    var map_: array<Byte>
    /** What goes behind it, if anything. */
    var append: array?<Byte>
    var appendSize: nat
    /** The file pointer as an offset into the file. */
    var ptr: nat
    /** Whether anything was to be written. */
    var updated: bool
    ghost var img: Image
    /** The file on the disk. */
    ghost const input: Bytes

    ghost predicate Valid()
      reads `map_, `append, `appendSize, `img, map_, append
    {
      (append == null ==> appendSize == 0) &&
      (append != null ==> append != map_ && appendSize == append.Length) &&
      |img| == map_.Length + appendSize &&
      (forall i :: 0 <= i < map_.Length ==> img[i] == Some(map_[i])) &&
      (forall i :: 0 <= i < appendSize && img[map_.Length + i].Some? ==> img[map_.Length + i].value == append[i])
    }

    /** Without a write the file on the disk is as it should be. */
    ghost predicate Kept()
      reads `updated, `img
    {
      updated || img == Cells(input)
    }

    constructor (contents: Bytes)
      ensures Valid() && Kept() && !updated && input == contents
      ensures img == Cells(contents) && map_.Length == |contents| && append == null && ptr == 0
      ensures fresh(map_)
    {
      map_ := new Byte[|contents|](i requires 0 <= i < |contents| => contents[i]);
      append, appendSize, ptr, updated := null, 0, 0, false;
      img, input := Cells(contents), contents;
    }

    method Seek(offset: int, whence: Whence) returns (ok: bool)
      requires Valid()
      modifies `ptr
      ensures Valid()
      ensures ok <==> Target(map_.Length, old(ptr), offset, whence) >= 0
      ensures ptr == if ok then Target(map_.Length, old(ptr), offset, whence) else old(ptr)
    {
      var p := 0;
      match whence {
        case Set => p := offset;
        case Cur => p := ptr + offset;
        case End => p := map_.Length - offset;
      }
      if p < 0 { return false; }
      ptr := p;
      return true;
    }

    /** Make the appended buffer at least n bytes long. */
    method Grow(n: nat)
      requires Valid()
      modifies `append, `appendSize, `img
      ensures Valid() && appendSize == (if n > old(appendSize) then n else old(appendSize))
      ensures append == old(append) || fresh(append)
      ensures append == null <==> old(append) == null && n <= old(appendSize)
      ensures img == Written(old(img), map_.Length + appendSize, [])
    {
      if n > appendSize {
        var grown := new Byte[n];
        forall i | 0 <= i < appendSize { grown[i] := append[i]; }
        img := Written(img, map_.Length + n, []);
        append, appendSize := grown, n;
      }
    }

    method CopyToMap(pos: nat, buf: Bytes)
      requires Valid() && pos + |buf| <= map_.Length
      modifies map_, `img
      ensures Valid() && img == Written(old(img), pos, buf)
    {
      forall i | 0 <= i < |buf| { map_[pos + i] := buf[i]; }
      img := Written(img, pos, buf);
    }

    method CopyToAppend(pos: nat, buf: Bytes)
      requires Valid() && pos + |buf| <= appendSize && append != null
      modifies append, `img
      ensures Valid() && img == Written(old(img), map_.Length + pos, buf)
    {
      forall i | 0 <= i < |buf| { append[pos + i] := buf[i]; }
      img := Written(img, map_.Length + pos, buf);
    }

    method CopyHead(a: Bytes)
      requires Valid() && ptr <= |img| && (a != [] ==> ptr + |a| <= map_.Length)
      modifies map_, `img
      ensures Valid() && img == Written(old(img), ptr, a) && |img| == |old(img)|
    {
      if a != [] { CopyToMap(ptr, a); } else { NothingWritten(img, ptr); }
    }

    method CopyTail(pos: nat, b: Bytes)
      requires Valid() && pos + |b| <= |img| && (b != [] ==> append != null && map_.Length <= pos)
      modifies append, `img
      ensures Valid() && img == Written(old(img), pos, b)
    {
      if b != [] { CopyToAppend(pos - map_.Length, b); } else { NothingWritten(img, pos); }
    }

    method CopyParts(head: Bytes, tail: Bytes)
      requires Valid() && ptr + |head| + |tail| <= |img| && (head != [] ==> ptr + |head| <= map_.Length)
      requires tail != [] ==> append != null && map_.Length <= ptr + |head|
      modifies map_, append, `img
      ensures Valid() && img == Written(Written(old(img), ptr, head), ptr + |head|, tail)
    {
      CopyHead(head);
      CopyTail(ptr + |head|, tail);
    }

    /** Make room for count bytes at the file pointer; cnt of them go to the mapped file. */
    method MakeRoom(count: nat) returns (ok: bool, cnt: nat)
      requires Valid()
      modifies `append, `appendSize, `img
      ensures Valid() && (append == old(append) || fresh(append))
      ensures ok <==> !(ptr + count == map_.Length && old(append) == null)
      ensures ok ==> cnt <= count && ptr + count <= |img| && (cnt > 0 ==> ptr + cnt <= map_.Length)
      ensures ok && cnt < count ==> append != null && map_.Length <= ptr + cnt
      ensures ok ==> Lengthened(old(img), img, ptr + count)
      ensures ok && ptr + count > map_.Length ==> append != null
    {
      cnt := count;
      NothingWritten(img, |img|);
      if ptr + count >= map_.Length {
        var aoffset := ptr + count - map_.Length;
        Grow(aoffset);
        if append == null { return false, 0; }
        cnt := if ptr < map_.Length then map_.Length - ptr else 0;
      }
      ok := true;
    }

    /** Writing fails in one case only: the data ends exactly where the mapped file ends and
        nothing has been appended yet. */
    method Write(buf: Bytes) returns (ok: bool)
      requires Valid()
      modifies this, map_, append
      ensures updated && Kept() && Valid() && map_ == old(map_) && (append == old(append) || fresh(append))
      ensures ok <==> !(old(ptr) + |buf| == map_.Length && old(append) == null)
      ensures ok ==> ptr == old(ptr) + |buf| && img == Written(old(img), old(ptr), buf)
      ensures ok && old(ptr) + |buf| > map_.Length ==> append != null
    {
      updated := true;
      var cnt;
      ok, cnt := MakeRoom(|buf|);
      if !ok { return; }
      ghost var grown := img;
      var head, tail := buf[..cnt], buf[cnt..];
      WrittenInParts(old(img), grown, ptr, buf, head, tail);
      CopyParts(head, tail);
      ptr := ptr + |buf|;
    }

    /** The file that is put in place of the input; nothing is done if the input is the file. */
    method Output() returns (bytes: Option<Bytes>)
      requires Valid() && Kept()
      ensures bytes.Some? <==> updated
      ensures bytes.None? ==> img == Cells(input)
      ensures bytes.Some? ==> |bytes.value| == |img| && forall i :: 0 <= i < |img| && img[i].Some? ==> bytes.value[i] == img[i].value
    {
      if !updated { return None; }
      var all := map_[..];
      if append != null { all := all + append[..]; }
      bytes := Some(all);
    }
  }

  /** The file made longer, but not beyond end. */
  ghost predicate Lengthened(img: Image, grown: Image, end: nat) {
    grown == Written(img, |grown|, []) && (|grown| <= |img| || |grown| <= end)
  }

  lemma WrittenInParts(img: Image, grown: Image, pos: nat, buf: Bytes, head: Bytes, tail: Bytes)
    requires |head| + |tail| == |buf| && head == buf[..|head|] && tail == buf[|head|..]
    requires pos + |buf| <= |grown| && Lengthened(img, grown, pos + |buf|)
    ensures Written(Written(grown, pos, head), pos + |head|, tail) == Written(img, pos, buf)
  {
    GrownFirst(img, |grown|, pos, buf);
    TwoParts(grown, pos, head, tail);
    assert head + tail == buf;
  }

  lemma NothingWritten(img: Image, pos: nat)
    requires pos <= |img|
    ensures Written(img, pos, []) == img
  {
  }

  /** A write in two parts. */
  lemma TwoParts(img: Image, pos: nat, a: Bytes, b: Bytes)
    ensures Written(Written(img, pos, a), pos + |a|, b) == Written(img, pos, a + b)
  {
  }

  /** Making the file longer first changes nothing. */
  lemma GrownFirst(img: Image, n: nat, pos: nat, buf: Bytes)
    requires n <= |img| || n <= pos + |buf|
    ensures Written(Written(img, n, []), pos, buf) == Written(img, pos, buf)
  {
  }
}
