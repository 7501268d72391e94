/**
 * The two streams a response hands to the WSGI server: the in-memory
 * `IBytesIO` buffer behind `Response` (a `BytesIO` that iterates in
 * 1024-byte chunks) and the binary file object behind `FileObjResponse`.
 */
module Streams {
  import opened Text

  /** Chunk size of `IBytesIO.read_kilo`. */
  const KILO: nat := 1024

  function Min(a: int, b: int): int {
    if a <= b then a else b
  }

  /** What `BytesIO.write(d)` leaves in a buffer whose position is `pos`: the bytes
      before `pos` stay, `d` replaces the bytes from `pos` on, and whatever the
      buffer held beyond the end of `d` stays too. */
  function Overwrite(buf: Bytes, pos: nat, d: Bytes): (r: Bytes)
    requires pos <= |buf|
    ensures |r| == if pos + |d| <= |buf| then |buf| else pos + |d|
    ensures r[..pos] == buf[..pos]
    ensures r[pos..pos + |d|] == d
    ensures r[pos + |d|..] == if pos + |d| <= |buf| then buf[pos + |d|..] else []
  {
    var r := buf[..pos] + d + (if pos + |d| <= |buf| then buf[pos + |d|..] else []);
    assert r[..pos] == buf[..pos];
    assert r[pos..pos + |d|] == d;
    r
  }

  /** Writing at the end of the buffer appends. */
  lemma OverwriteAtEnd(buf: Bytes, d: Bytes)
    ensures Overwrite(buf, |buf|, d) == buf + d
  {
    var r := Overwrite(buf, |buf|, d);
    assert r == r[..|buf|] + r[|buf|..|buf| + |d|];
  }

  /** Writing over the whole buffer from position 0 with at least as many bytes replaces it. */
  lemma OverwriteAll(buf: Bytes, d: Bytes)
    requires |d| >= |buf|
    ensures Overwrite(buf, 0, d) == d
  {
    var r := Overwrite(buf, 0, d);
    assert r == r[0..|d|];
  }

  /** `iter(self.read_kilo, b'')` over `s`: the successive `read(1024)` results up
      to the first empty one. */
  function KiloChunks(s: Bytes): seq<Bytes>
    decreases |s|
  {
    if s == [] then []
    else if |s| <= KILO then [s]
    else [s[..KILO]] + KiloChunks(s[KILO..])
  }

  /** The chunks join back to `s`, none is empty, and every one but the last holds
      exactly 1024 bytes. */
  lemma {:induction false} KiloChunksShape(s: Bytes)
    ensures var r := KiloChunks(s);
      && Flatten(r) == s
      && (forall i :: 0 <= i < |r| ==> 1 <= |r[i]| <= KILO)
      && (forall i :: 0 <= i < |r| - 1 ==> |r[i]| == KILO)
    decreases |s|
  {
    if s == [] {
    } else if |s| <= KILO {
      assert Flatten([s]) == s + Flatten([]);
    } else {
      var rest := KiloChunks(s[KILO..]);
      KiloChunksShape(s[KILO..]);
      assert ([s[..KILO]] + rest)[1..] == rest;
      assert s == s[..KILO] + s[KILO..];
    }
  }

  /** One `read(1024)` takes the first chunk off the chunking of the rest. */
  lemma KiloChunksStep(s: Bytes, p: nat)
    requires p < |s|
    ensures KiloChunks(s[p..]) == [s[p..Min(p + KILO, |s|)]] + KiloChunks(s[Min(p + KILO, |s|)..])
  {
    var t := s[p..];
    if |t| <= KILO {
      assert Min(p + KILO, |s|) == |s|;
      assert s[p..|s|] == t;
      assert KiloChunks(s[|s|..]) == [];
    } else {
      assert t[..KILO] == s[p..p + KILO];
      assert t[KILO..] == s[p + KILO..];
    }
  }

  /** The chunking is the only one with those three properties: any sequence of
      non-empty chunks of at most 1024 bytes, all full but the last, that joins to
      `s` is `KiloChunks(s)`. */
  lemma {:induction false} KiloChunksUnique(s: Bytes, cs: seq<Bytes>)
    requires Flatten(cs) == s
    requires forall i :: 0 <= i < |cs| ==> 1 <= |cs[i]| <= KILO
    requires forall i :: 0 <= i < |cs| - 1 ==> |cs[i]| == KILO
    ensures cs == KiloChunks(s)
    decreases |s|
  {
    if cs != [] {
      var c := cs[0];
      assert Flatten(cs) == c + Flatten(cs[1..]);
      if |cs| == 1 {
        assert Flatten(cs[1..]) == [];
        assert s == c;
      } else {
        assert |c| == KILO;
        assert |Flatten(cs[1..])| >= |cs[1]| by {
          assert Flatten(cs[1..]) == cs[1] + Flatten(cs[2..]);
        }
        assert s[..KILO] == c;
        assert s[KILO..] == Flatten(cs[1..]);
        KiloChunksUnique(s[KILO..], cs[1..]);
      }
    }
  }

  /** The buffer behind `Response`: `IBytesIO(BytesIO)` with its stored bytes and
      stream position. */
  class IBytesIO {
    var bytes: Bytes
    var pos: nat

    ghost predicate Valid()
      reads this
    {
      pos <= |bytes|
    }

    /** `IBytesIO(data)`: holds `data`, positioned at its start. */
    constructor (data: Bytes)
      ensures Valid() && bytes == data && pos == 0
    {
      bytes := data;
      pos := 0;
    }

    /** `write(d)` at the current position. */
    method Write(d: Bytes)
      requires Valid()
      modifies this
      ensures Valid()
      ensures bytes == Overwrite(old(bytes), old(pos), d)
      ensures pos == old(pos) + |d|
    {
      bytes := Overwrite(bytes, pos, d);
      pos := pos + |d|;
    }

    /** `seek(0)` */
    method Rewind()
      modifies this`pos
      ensures pos == 0
    {
      pos := 0;
    }

    /** `read(n)`: up to `n` bytes from the position on. */
    method ReadUpTo(n: nat) returns (r: Bytes)
      requires Valid()
      modifies this`pos
      ensures Valid()
      ensures r == bytes[old(pos)..Min(old(pos) + n, |bytes|)]
      ensures pos == old(pos) + |r|
      ensures r == [] <==> (n == 0 || old(pos) == |bytes|)
    {
      var end := Min(pos + n, |bytes|);
      r := bytes[pos..end];
      pos := end;
    }

    /** `read()`: everything from the position on. */
    method Read() returns (r: Bytes)
      requires Valid()
      modifies this`pos
      ensures Valid()
      ensures r == bytes[old(pos)..] && pos == |bytes|
    {
      r := bytes[pos..];
      pos := |bytes|;
    }

    /** `read_kilo()` */
    method ReadKilo() returns (r: Bytes)
      requires Valid()
      modifies this`pos
      ensures Valid()
      ensures r == bytes[old(pos)..Min(old(pos) + KILO, |bytes|)]
      ensures pos == old(pos) + |r|
      ensures r == [] <==> old(pos) == |bytes|
    {
      r := ReadUpTo(KILO);
    }

    /** `list(iter(self))`: reads 1024 bytes at a time until a read comes back empty.
        The chunks are `KiloChunks` of what lay beyond the position, and the stream
        ends at its end. */
    method Iterate() returns (chunks: seq<Bytes>)
      requires Valid()
      modifies this`pos
      ensures Valid()
      ensures chunks == KiloChunks(old(bytes[pos..]))
      ensures Flatten(chunks) == bytes[old(pos)..]
      ensures forall i :: 0 <= i < |chunks| ==> 1 <= |chunks[i]| <= KILO
      ensures pos == |bytes|
    {
      ghost var all := bytes[pos..];
      chunks := [];
      while true
        invariant Valid() && old(pos) <= pos
        invariant chunks + KiloChunks(bytes[pos..]) == KiloChunks(all)
        decreases |bytes| - pos
      {
        ghost var before := pos;
        var chunk := ReadKilo();
        if chunk == [] {
          assert bytes[pos..] == [];
          break;
        }
        KiloChunksStep(bytes, before);
        assert KiloChunks(bytes[before..]) == [chunk] + KiloChunks(bytes[pos..]);
        assert chunks + [chunk] + KiloChunks(bytes[pos..]) == chunks + ([chunk] + KiloChunks(bytes[pos..]));
        chunks := chunks + [chunk];
      }
      assert chunks == KiloChunks(all);
      KiloChunksShape(all);
    }
  }

  /** The file object behind `FileObjResponse`: its content, its stream position
      and what `readable()`, `seekable()` and the binary/text distinction report.
      `sizeKnown` says whether the size can be looked up (`fstat` on its file
      descriptor, or the buffer size of a `BytesIO`). */
  class FileObject {
    const content: Bytes
    var pos: nat
    const readable: bool
    const binary: bool
    const seekable: bool
    const sizeKnown: bool

    constructor (content: Bytes, pos: nat, readable: bool, binary: bool, seekable: bool, sizeKnown: bool)
      ensures this.content == content && this.pos == pos
      ensures this.readable == readable && this.binary == binary
      ensures this.seekable == seekable && this.sizeKnown == sizeKnown
    {
      this.content := content;
      this.pos := pos;
      this.readable := readable;
      this.binary := binary;
      this.seekable := seekable;
      this.sizeKnown := sizeKnown;
    }

    /** `tell()` */
    method Tell() returns (p: nat)
      requires seekable
      ensures p == pos
    {
      p := pos;
    }

    /** `seek(p)`; a file may be positioned past its end. */
    method Seek(p: nat)
      requires seekable
      modifies this`pos
      ensures pos == p
    {
      pos := p;
    }

    /** `read()`: everything from the position on, nothing when positioned past the end. */
    method Read() returns (r: Bytes)
      modifies this`pos
      ensures r == Remaining(content, old(pos))
      ensures pos == old(pos) + |r|
    {
      r := Remaining(content, pos);
      pos := pos + |r|;
    }
  }

  /** The bytes of `content` from `pos` on; none past the end. */
  function Remaining(content: Bytes, pos: nat): (r: Bytes)
    ensures pos <= |content| ==> r == content[pos..] && |r| == |content| - pos
    ensures pos >= |content| ==> r == []
  {
    if pos <= |content| then content[pos..] else []
  }
}
