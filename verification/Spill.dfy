/**
 Object spilling of python/ray/external_storage.py: objects fused into one file behind 24-byte
 headers, restored through URLs that carry offset and size.
 */
module Spill {
  import opened Base
  import Decimals
  import Url = SpillUrl

  type byte = x: int | 0 <= x < 256

  const HEADER_LENGTH: nat := 24

  datatype Error =
    | ObjectMissing(ref: string, ownerFailed: bool)
    | LengthOverflow
    | BadUrl
    | NoSuchFile
    | SizeMismatch
    | TooFewUrls

  datatype Result<T> = Ok(value: T) | Err(error: Error)

  // ---------------------------------------------------------------- little-endian lengths

  function Pow256(k: nat): nat {
    if k == 0 then 1 else 256 * Pow256(k - 1)
  }

  /** int.to_bytes(k, byteorder="little"), for numbers that fit. */
  function ToBytes(n: nat, k: nat): (bs: seq<byte>)
    ensures |bs| == k
  {
    if k == 0 then [] else [n % 256] + ToBytes(n / 256, k - 1)
  }

  function FromBytes(bs: seq<byte>): nat {
    if bs == [] then 0 else bs[0] + 256 * FromBytes(bs[1..])
  }

  lemma {:induction false} BytesRoundTrip(n: nat, k: nat)
    requires n < Pow256(k)
    ensures FromBytes(ToBytes(n, k)) == n
  {
    if k > 0 {
      BytesRoundTrip(n / 256, k - 1);
      assert ToBytes(n, k)[1..] == ToBytes(n / 256, k - 1);
    }
  }

  lemma LowByte(b: byte, n: nat)
    ensures (b + 256 * n) % 256 == b && (b + 256 * n) / 256 == n
  {}

  lemma {:induction false} BytesBack(bs: seq<byte>)
    ensures ToBytes(FromBytes(bs), |bs|) == bs
  {
    if bs != [] {
      BytesBack(bs[1..]);
      LowByte(bs[0], FromBytes(bs[1..]));
      assert bs == [bs[0]] + bs[1..];
    }
  }

  predicate AllZero(bs: seq<byte>) { forall k :: 0 <= k < |bs| ==> bs[k] == 0 }

  lemma {:induction false} ZeroIff(bs: seq<byte>)
    ensures FromBytes(bs) == 0 <==> AllZero(bs)
  {
    if bs != [] {
      ZeroIff(bs[1..]);
      assert bs == [bs[0]] + bs[1..];
    }
  }

  const LIMIT: nat := Pow256(8)

  // ---------------------------------------------------------------- the fused file

  /** An object in the store: its owner's address, its metadata and its bytes. */
  datatype Object = Object(owner: seq<byte>, metadata: seq<byte>, buf: seq<byte>) {
    predicate Fits() {
      |owner| < LIMIT && |metadata| < LIMIT && |buf| < LIMIT
    }

    /** The object as it should come back. */
    function Back(): Restored {
      Restored(owner, metadata, |buf|, buf)
    }

    /** Three lengths, then owner address, metadata and buffer. */
    function Payload(): (p: seq<byte>)
      ensures |p| == HEADER_LENGTH + |owner| + |metadata| + |buf|
    {
      ToBytes(|owner|, 8) + (ToBytes(|metadata|, 8) + (ToBytes(|buf|, 8) + (owner + (metadata + buf))))
    }
  }

  function Payloads(os: seq<Object>): (ps: seq<seq<byte>>)
    ensures |ps| == |os| && forall i :: 0 <= i < |os| ==> ps[i] == os[i].Payload()
  {
    seq(|os|, i requires 0 <= i < |os| => os[i].Payload())
  }

  /** The pieces one after the other. */
  function Fuse(ps: seq<seq<byte>>): seq<byte> {
    if ps == [] then [] else Fuse(ps[..|ps| - 1]) + ps[|ps| - 1]
  }

  /** Where piece `i` starts. */
  function Offset(ps: seq<seq<byte>>, i: nat): nat
    requires i <= |ps|
  {
    if i == 0 then 0 else Offset(ps, i - 1) + |ps[i - 1]|
  }

  function Key(url: string, ps: seq<seq<byte>>, i: nat): string
    requires i < |ps|
  {
    Url.Create(url, Offset(ps, i), |ps[i]|)
  }

  function Keys(url: string, ps: seq<seq<byte>>): seq<string> {
    seq(|ps|, i requires 0 <= i < |ps| => Key(url, ps, i))
  }

  lemma {:induction false} OffsetPrefix(ps: seq<seq<byte>>, n: nat, i: nat)
    requires i <= n <= |ps|
    ensures Offset(ps[..n], i) == Offset(ps, i)
  {
    if i > 0 {
      OffsetPrefix(ps, n, i - 1);
    }
  }

  lemma {:induction false} FuseLength(ps: seq<seq<byte>>)
    ensures |Fuse(ps)| == Offset(ps, |ps|)
  {
    if ps != [] {
      FuseLength(ps[..|ps| - 1]);
      OffsetPrefix(ps, |ps| - 1, |ps| - 1);
    }
  }

  /** The ranges named by the URLs tile the file: each starts where the one before ends, and the last ends the file. */
  lemma RangesTileFile(ps: seq<seq<byte>>)
    ensures Offset(ps, 0) == 0
    ensures forall i :: 0 <= i < |ps| ==> Offset(ps, i) + |ps[i]| == Offset(ps, i + 1)
    ensures Offset(ps, |ps|) == |Fuse(ps)|
  {
    FuseLength(ps);
    forall i | 0 <= i < |ps|
      ensures Offset(ps, i) + |ps[i]| == Offset(ps, i + 1)
    {}
  }

  /** From its offset on, the file starts with piece `i`. */
  lemma {:induction false} PieceAt(ps: seq<seq<byte>>, i: nat) returns (rest: seq<byte>)
    requires i < |ps|
    ensures Offset(ps, i) <= |Fuse(ps)| && Fuse(ps)[Offset(ps, i)..] == ps[i] + rest
  {
    var n := |ps| - 1;
    var most := ps[..n];
    FuseLength(most);
    OffsetPrefix(ps, n, i);
    if i == n {
      rest := [];
      assert Fuse(ps)[|Fuse(most)|..] == ps[n] == ps[n] + rest;
    } else {
      var inner := PieceAt(most, i);
      rest := inner + ps[n];
      DropAppend(Fuse(most), ps[n], Offset(ps, i), ps[i], inner);
    }
  }

  lemma DropAppend(a: seq<byte>, b: seq<byte>, k: nat, x: seq<byte>, y: seq<byte>)
    requires k <= |a| && a[k..] == x + y
    ensures (a + b)[k..] == x + (y + b)
  {
    assert (a + b)[k..] == a[k..] + b;
    Regroup(x, y, b);
  }

  // ---------------------------------------------------------------- files

  /** An open file: its bytes and the position of the next read or write. */
  class File {
    var data: seq<byte>
    var pos: nat

    ghost predicate AtEnd()
      reads this
    {
      pos == |data|
    }

    constructor (contents: seq<byte>)
      ensures data == contents && pos == 0
    {
      data, pos := contents, 0;
    }

    /** Writing at the end appends. */
    method Write(bs: seq<byte>) returns (written: nat)
      requires AtEnd()
      modifies this
      ensures AtEnd() && data == old(data) + bs && written == |bs|
    {
      data := data + bs;
      pos := pos + |bs|;
      written := |bs|;
    }

    method Seek(offset: nat)
      modifies this`pos
      ensures pos == offset
    {
      pos := offset;
    }

    method Read(n: nat) returns (bs: seq<byte>)
      modifies this`pos
      ensures bs == ReadAt(data, old(pos), n) && pos == old(pos) + |bs|
    {
      bs := ReadAt(data, pos, n);
      pos := pos + |bs|;
    }
  }

  /** At most `n` bytes from `at`; fewer at the end of the data, none past it. */
  function ReadAt(data: seq<byte>, at: nat, n: nat): seq<byte> {
    if at >= |data| then [] else if at + n <= |data| then data[at..at + n] else data[at..]
  }

  lemma ReadExact(data: seq<byte>, at: nat, x: seq<byte>, rest: seq<byte>)
    requires at <= |data| && data[at..] == x + rest
    ensures ReadAt(data, at, |x|) == x
    ensures at + |x| <= |data| && data[at + |x|..] == rest
  {
    assert |data| == at + |x| + |rest|;
    assert data[at..at + |x|] == data[at..][..|x|] == x;
    assert data[at + |x|..] == data[at..][|x|..] == rest;
  }

  /** An object read back into the store. */
  datatype Restored = Restored(owner: seq<byte>, metadata: seq<byte>, dataSize: nat, buf: seq<byte>)

  /** The three lengths in front of an object, and where its body starts. */
  datatype Header = Header(addressLen: nat, metadataLen: nat, bufLen: nat, body: nat)

  function ReadHeader(data: seq<byte>, at: nat): Header {
    var h1 := ReadAt(data, at, 8);
    var h2 := ReadAt(data, at + |h1|, 8);
    var h3 := ReadAt(data, at + |h1| + |h2|, 8);
    Header(FromBytes(h1), FromBytes(h2), FromBytes(h3), at + |h1| + |h2| + |h3|)
  }

  function ReadBody(data: seq<byte>, h: Header): Restored {
    var owner := ReadAt(data, h.body, h.addressLen);
    var metadata := ReadAt(data, h.body + |owner|, h.metadataLen);
    Restored(owner, metadata, h.bufLen, ReadAt(data, h.body + |owner| + |metadata|, h.bufLen))
  }

  predicate SizeCheck(h: Header, size: nat) {
    h.addressLen + h.metadataLen + h.bufLen + HEADER_LENGTH == size
  }

  /** Reads one object at an offset; the size the URL promised is checked before the body is read. */
  function ReadObject(data: seq<byte>, at: nat, size: nat): Result<Restored> {
    var h := ReadHeader(data, at);
    if SizeCheck(h, size) then Ok(ReadBody(data, h)) else Err(SizeMismatch)
  }

  lemma HeaderParts(data: seq<byte>, at: nat, h1: seq<byte>, h2: seq<byte>, h3: seq<byte>, rest: seq<byte>)
    requires |h1| == |h2| == |h3| == 8
    requires at <= |data| && data[at..] == h1 + (h2 + (h3 + rest))
    ensures ReadHeader(data, at) == Header(FromBytes(h1), FromBytes(h2), FromBytes(h3), at + 24)
    ensures at + 24 <= |data| && data[at + 24..] == rest
  {
    ReadExact(data, at, h1, h2 + (h3 + rest));
    ReadExact(data, at + 8, h2, h3 + rest);
    ReadExact(data, at + 16, h3, rest);
  }

  lemma BodyParts(data: seq<byte>, h: Header, owner: seq<byte>, metadata: seq<byte>, buf: seq<byte>, rest: seq<byte>)
    requires h.addressLen == |owner| && h.metadataLen == |metadata| && h.bufLen == |buf|
    requires h.body <= |data| && data[h.body..] == owner + (metadata + (buf + rest))
    ensures ReadBody(data, h) == Restored(owner, metadata, |buf|, buf)
  {
    ReadExact(data, h.body, owner, metadata + (buf + rest));
    ReadExact(data, h.body + |owner|, metadata, buf + rest);
    ReadExact(data, h.body + |owner| + |metadata|, buf, rest);
  }

  lemma ReadParts(data: seq<byte>, at: nat, h1: seq<byte>, h2: seq<byte>, h3: seq<byte>, o: Object, rest: seq<byte>)
    requires |h1| == |h2| == |h3| == 8
    requires FromBytes(h1) == |o.owner| && FromBytes(h2) == |o.metadata| && FromBytes(h3) == |o.buf|
    requires at <= |data| && data[at..] == h1 + (h2 + (h3 + (o.owner + (o.metadata + o.buf)))) + rest
    ensures ReadObject(data, at, HEADER_LENGTH + |o.owner| + |o.metadata| + |o.buf|) == Ok(o.Back())
  {
    var body := o.owner + (o.metadata + (o.buf + rest));
    PushRest(h1, h2, h3, o.owner, o.metadata, o.buf, rest);
    HeaderParts(data, at, h1, h2, h3, body);
    BodyParts(data, ReadHeader(data, at), o.owner, o.metadata, o.buf, rest);
  }

  lemma PushRest(a: seq<byte>, b: seq<byte>, c: seq<byte>, d: seq<byte>, e: seq<byte>, f: seq<byte>, rest: seq<byte>)
    ensures a + (b + (c + (d + (e + f)))) + rest == a + (b + (c + (d + (e + (f + rest)))))
  {
    Regroup(a, b + (c + (d + (e + f))), rest);
    Regroup(b, c + (d + (e + f)), rest);
    Regroup(c, d + (e + f), rest);
    Regroup(d, e + f, rest);
    Regroup(e, f, rest);
  }

  /** Reading where a payload lies gives back the object. */
  lemma ReadPayload(data: seq<byte>, at: nat, o: Object, rest: seq<byte>)
    requires o.Fits() && at <= |data| && data[at..] == o.Payload() + rest
    ensures ReadObject(data, at, |o.Payload()|) == Ok(o.Back())
  {
    BytesRoundTrip(|o.owner|, 8);
    BytesRoundTrip(|o.metadata|, 8);
    BytesRoundTrip(|o.buf|, 8);
    ReadParts(data, at, ToBytes(|o.owner|, 8), ToBytes(|o.metadata|, 8), ToBytes(|o.buf|, 8), o, rest);
  }

  /** From `at` on, the data starts with `p`. */
  predicate Holds(data: seq<byte>, at: nat, p: seq<byte>) {
    at <= |data| && p <= data[at..]
  }

  /** Fewer bytes than a header has are left from `at` on, if any, and all are zero. */
  predicate EndsInZeros(data: seq<byte>, at: nat) {
    |data| < at + HEADER_LENGTH && (at <= |data| ==> AllZero(data[at..]))
  }

  /** A read takes the front of what lies there; when it is cut short nothing is left. */
  lemma ReadSplits(data: seq<byte>, at: nat, n: nat)
    requires at <= |data|
    ensures var r := ReadAt(data, at, n);
            && at + |r| <= |data| && data[at..] == r + data[at + |r|..]
            && |r| == (if at + n <= |data| then n else |data| - at)
  {}

  lemma HeaderLies(data: seq<byte>, at: nat)
    requires at + HEADER_LENGTH <= |data|
    ensures var h := ReadHeader(data, at);
            && h.body == at + HEADER_LENGTH
            && data[at..] == ToBytes(h.addressLen, 8) + (ToBytes(h.metadataLen, 8) + (ToBytes(h.bufLen, 8) + data[h.body..]))
  {
    ReadSplits(data, at, 8);
    ReadSplits(data, at + 8, 8);
    ReadSplits(data, at + 16, 8);
    BytesBack(ReadAt(data, at, 8));
    BytesBack(ReadAt(data, at + 8, 8));
    BytesBack(ReadAt(data, at + 16, 8));
  }

  lemma BodyLies(data: seq<byte>, h: Header)
    requires var r := ReadBody(data, h);
             h.body <= |data| && |r.owner| == h.addressLen && |r.metadata| == h.metadataLen && |r.buf| == h.bufLen
    ensures var r := ReadBody(data, h);
            r.owner + (r.metadata + r.buf) <= data[h.body..]
  {
    var r := ReadBody(data, h);
    ReadSplits(data, h.body, |r.owner|);
    ReadSplits(data, h.body + |r.owner|, |r.metadata|);
    ReadSplits(data, h.body + |r.owner| + |r.metadata|, |r.buf|);
    var end := h.body + |r.owner| + |r.metadata| + |r.buf|;
    PushRest([], [], [], r.owner, r.metadata, r.buf, data[end..]);
  }

  lemma ZerosOfParts(s: seq<byte>, a: seq<byte>, b: seq<byte>, c: seq<byte>)
    requires s == a + (b + (c + []))
    ensures AllZero(s) <==> AllZero(a) && AllZero(b) && AllZero(c)
  {
    assert forall k :: 0 <= k < |a| ==> a[k] == s[k];
    assert forall k :: 0 <= k < |b| ==> b[k] == s[|a| + k];
    assert forall k :: 0 <= k < |c| ==> c[k] == s[|a| + |b| + k];
  }

  /** Behind a header that is cut short lies nothing, and its lengths are zero exactly when its bytes are. */
  lemma ShortHeader(data: seq<byte>, at: nat)
    requires |data| < at + HEADER_LENGTH
    ensures var h := ReadHeader(data, at);
            && |data| <= h.body
            && (h.addressLen == h.metadataLen == h.bufLen == 0 <==> EndsInZeros(data, at))
  {
    var h1 := ReadAt(data, at, 8);
    var h2 := ReadAt(data, at + |h1|, 8);
    var h3 := ReadAt(data, at + |h1| + |h2|, 8);
    ZeroIff(h1);
    ZeroIff(h2);
    ZeroIff(h3);
    if at <= |data| {
      ReadSplits(data, at, 8);
      ReadSplits(data, at + |h1|, 8);
      ReadSplits(data, at + |h1| + |h2|, 8);
      ZerosOfParts(data[at..], h1, h2, h3);
    }
  }

  /** The lengths read are those of the parts, for a part that is cut short makes the size check fail. */
  lemma LengthsAgree(data: seq<byte>, h: Header, o: Object)
    requires ReadBody(data, h) == o.Back() && SizeCheck(h, |o.Payload()|)
    ensures h.addressLen == |o.owner| && h.metadataLen == |o.metadata| && h.bufLen == |o.buf|
  {}

  lemma PrefixOfParts(s: seq<byte>, a: seq<byte>, b: seq<byte>, c: seq<byte>, d: seq<byte>, rest: seq<byte>)
    requires s == a + (b + (c + rest)) && d <= rest
    ensures a + (b + (c + d)) <= s
  {}

  /**
   Reading with an object's size gives back that object exactly when its payload lies there, or when
   the object is empty in all its parts and a cut header of zero bytes lies there.
   */
  lemma ReadsObjectIff(data: seq<byte>, at: nat, o: Object)
    requires o.Fits()
    ensures ReadObject(data, at, |o.Payload()|) == Ok(o.Back()) <==>
            Holds(data, at, o.Payload()) || (o == Object([], [], []) && EndsInZeros(data, at))
  {
    var h, p := ReadHeader(data, at), o.Payload();
    if Holds(data, at, p) {
      assert data[at..] == p + data[at..][|p|..];
      ReadPayload(data, at, o, data[at..][|p|..]);
    } else if |data| < at + HEADER_LENGTH {
      ShortHeader(data, at);
    } else if ReadObject(data, at, |p|) == Ok(o.Back()) {
      LengthsAgree(data, h, o);
      HeaderLies(data, at);
      BodyLies(data, h);
      PrefixOfParts(data[at..], ToBytes(|o.owner|, 8), ToBytes(|o.metadata|, 8), ToBytes(|o.buf|, 8),
                    o.owner + (o.metadata + o.buf), data[h.body..]);
    }
  }

  // ---------------------------------------------------------------- spilling and restoring

  /** What the object store answers for a reference: no bytes when the object is gone. */
  datatype Fetched = Fetched(buf: Option<seq<byte>>, metadata: seq<byte>)
  function Min(a: nat, b: nat): nat {
    if a <= b then a else b
  }

  function Min3(a: nat, b: nat, c: nat): nat {
    if a <= b && a <= c then a else if b <= c then b else c
  }

  /** The objects up to the first that is gone or too long to be written. */
  function Writable(refs: seq<string>, fetched: seq<Fetched>, owners: seq<seq<byte>>, n: nat): (os: seq<Object>)
    requires n <= Min3(|refs|, |fetched|, |owners|)
    ensures |os| <= n && forall i :: 0 <= i < |os| ==> os[i].Fits()
    ensures forall i :: 0 <= i < |os| ==>
              os[i].owner == owners[i] && os[i].metadata == fetched[i].metadata && fetched[i].buf == Some(os[i].buf)
  {
    if n == 0 then []
    else
      var os := Writable(refs, fetched, owners, n - 1);
      if |os| < n - 1 || fetched[n - 1].buf.None? then os
      else
        var o := Object(owners[n - 1], fetched[n - 1].metadata, fetched[n - 1].buf.value);
        if o.Fits() then os + [o] else os
  }

  /** Fuses the objects into `f` and returns one key per object, or the error of the first that cannot be written. */
  method WriteMultipleObjects(f: File, refs: seq<string>, fetched: seq<Fetched>, owners: seq<seq<byte>>, url: string)
    returns (r: Result<seq<string>>)
    requires f.data == [] && f.pos == 0
    modifies f
    ensures var n := Min3(|refs|, |fetched|, |owners|);
            var os := Writable(refs, fetched, owners, n);
            && f.data == Fuse(Payloads(os))
            && (r.Ok? <==> |os| == n)
            && (r.Ok? ==> r.value == Keys(url, Payloads(os)))
            && (r.Err? ==> r.error == if fetched[|os|].buf.Some? then LengthOverflow
                                      else ObjectMissing(refs[|os|], |fetched[|os|].metadata| == 1))
  {
    var keys: seq<string> := [];
    var offset := 0;
    var n := Min3(|refs|, |fetched|, |owners|);
    for i := 0 to n
      invariant f.AtEnd() && offset == f.pos
      invariant var os := Writable(refs, fetched, owners, i);
                |os| == i && f.data == Fuse(Payloads(os)) && keys == Keys(url, Payloads(os))
    {
      ghost var os := Writable(refs, fetched, owners, i);
      if fetched[i].buf.None? {
        WritableStops(refs, fetched, owners, i, n);
        return Err(ObjectMissing(refs[i], |fetched[i].metadata| == 1));
      }
      var o := Object(owners[i], fetched[i].metadata, fetched[i].buf.value);
      if !o.Fits() {
        WritableStops(refs, fetched, owners, i, n);
        return Err(LengthOverflow);
      }
      FuseSnoc(os, o, url);
      var payload := o.Payload();
      var written := f.Write(payload);
      keys := keys + [Url.Create(url, offset, written)];
      offset := f.pos;
    }
    r := Ok(keys);
  }

  lemma FuseSnoc(os: seq<Object>, o: Object, url: string)
    ensures Fuse(Payloads(os + [o])) == Fuse(Payloads(os)) + o.Payload()
    ensures Keys(url, Payloads(os + [o])) ==
            Keys(url, Payloads(os)) + [Url.Create(url, |Fuse(Payloads(os))|, |o.Payload()|)]
  {
    var ps := Payloads(os);
    assert Payloads(os + [o]) == ps + [o.Payload()];
    PieceSnoc(ps, o.Payload(), url);
  }

  lemma PieceSnoc(ps: seq<seq<byte>>, p: seq<byte>, url: string)
    ensures Fuse(ps + [p]) == Fuse(ps) + p
    ensures Keys(url, ps + [p]) == Keys(url, ps) + [Url.Create(url, |Fuse(ps)|, |p|)]
  {
    var all := ps + [p];
    assert all[..|ps|] == ps;
    FuseLength(ps);
    forall i | 0 <= i <= |ps|
      ensures Offset(all, i) == Offset(ps, i)
    {
      OffsetPrefix(all, |ps|, i);
    }
  }

  lemma {:induction false} WritableStops(refs: seq<string>, fetched: seq<Fetched>, owners: seq<seq<byte>>, i: nat, n: nat)
    requires i < n <= Min3(|refs|, |fetched|, |owners|)
    requires |Writable(refs, fetched, owners, i)| == i
    requires fetched[i].buf.None? || !Object(owners[i], fetched[i].metadata, fetched[i].buf.value).Fits()
    ensures Writable(refs, fetched, owners, n) == Writable(refs, fetched, owners, i)
  {
    if n > i + 1 {
      WritableStops(refs, fetched, owners, i, n - 1);
    }
  }

  /** What restoring one URL yields from the given files. */
  function RestoreOne(files: map<string, seq<byte>>, url: string): Result<Restored> {
    var u := Url.Parse(url);
    if !u.Parsed? then Err(BadUrl)
    else if u.base !in files then Err(NoSuchFile)
    else ReadObject(files[u.base], u.offset, u.size)
  }

  function Answers(files: map<string, seq<byte>>, urls: seq<string>): (rs: seq<Result<Restored>>)
    ensures |rs| == |urls|
  {
    MapAll(url => RestoreOne(files, url), urls)
  }

  lemma AnswerAt(files: map<string, seq<byte>>, urls: seq<string>, i: nat)
    requires i < |urls|
    ensures Answers(files, urls)[i] == RestoreOne(files, urls[i])
  {
    MapAt(url => RestoreOne(files, url), urls, i);
  }

  /** The objects restored before the first failure, in order. */
  function Successes(rs: seq<Result<Restored>>): (vals: seq<Restored>)
    ensures |vals| <= |rs|
  {
    if rs == [] || rs[0].Err? then [] else [rs[0].value] + Successes(rs[1..])
  }

  lemma TotalSnoc(rs: seq<Restored>, r: Restored)
    ensures TotalBytes(rs + [r]) == TotalBytes(rs) + r.dataSize
  {
    assert (rs + [r])[..|rs|] == rs;
  }

  /** A success extends what is restored. */
  lemma {:induction false} NextSuccess(rs: seq<Result<Restored>>, r: Result<Restored>)
    requires |Successes(rs)| == |rs|
    ensures Successes(rs + [r]) == if r.Ok? then Successes(rs) + [r.value] else Successes(rs)
  {
    if rs == [] {
      assert rs + [r] == [r] && [r][1..] == [];
    } else {
      assert (rs + [r])[1..] == rs[1..] + [r];
      NextSuccess(rs[1..], r);
    }
  }

  /** After a failure nothing more is restored. */
  lemma {:induction false} NothingAfterFailure(rs: seq<Result<Restored>>, i: nat)
    requires i < |rs| && rs[i].Err? && |Successes(rs[..i])| == i
    ensures Successes(rs) == Successes(rs[..i])
  {
    if i > 0 {
      assert rs[..i][1..] == rs[1..][..i - 1];
      NothingAfterFailure(rs[1..], i - 1);
    }
  }

  lemma NextAnswer(rs: seq<Result<Restored>>, i: nat, n: nat)
    requires i < n <= |rs| && |Successes(rs[..i])| == i
    ensures rs[i].Ok? ==> Successes(rs[..i + 1]) == Successes(rs[..i]) + [rs[i].value]
    ensures rs[i].Err? ==> Successes(rs[..n]) == Successes(rs[..i])
  {
    if rs[i].Ok? {
      assert rs[..i + 1] == rs[..i] + [rs[i]];
      NextSuccess(rs[..i], rs[i]);
    } else {
      assert rs[..n][..i] == rs[..i];
      NothingAfterFailure(rs[..n], i);
    }
  }

  lemma AnswersPrefix(files: map<string, seq<byte>>, urls: seq<string>, n: nat)
    requires n <= |urls|
    ensures Answers(files, urls[..n]) == Answers(files, urls)[..n]
  {
    forall i | 0 <= i < n
      ensures Answers(files, urls[..n])[i] == Answers(files, urls)[i]
    {
      AnswerAt(files, urls, i);
      AnswerAt(files, urls[..n], i);
    }
  }

  lemma {:induction false} SuccessesAre(rs: seq<Result<Restored>>, vals: seq<Restored>)
    requires |vals| <= |rs| && (|vals| == |rs| || rs[|vals|].Err?)
    requires forall i :: 0 <= i < |vals| ==> rs[i] == Ok(vals[i])
    ensures Successes(rs) == vals
  {
    if vals != [] {
      SuccessesAre(rs[1..], vals[1..]);
      assert rs[0] == Ok(vals[0]);
    }
  }

  function TotalBytes(rs: seq<Restored>): nat {
    if rs == [] then 0 else TotalBytes(rs[..|rs| - 1]) + rs[|rs| - 1].dataSize
  }

  method ReadHeaderFrom(f: File) returns (h: Header)
    modifies f`pos
    ensures h == ReadHeader(f.data, old(f.pos)) && f.pos == h.body
  {
    var h1 := f.Read(8);
    var h2 := f.Read(8);
    var h3 := f.Read(8);
    h := Header(FromBytes(h1), FromBytes(h2), FromBytes(h3), f.pos);
  }

  method ReadBodyFrom(f: File, h: Header) returns (r: Restored)
    requires f.pos == h.body
    modifies f`pos
    ensures r == ReadBody(f.data, h)
  {
    var owner := f.Read(h.addressLen);
    var metadata := f.Read(h.metadataLen);
    var buf := f.Read(h.bufLen);
    r := Restored(owner, metadata, h.bufLen, buf);
  }

  /** Reads one object through a file position. */
  method ReadFrom(f: File, offset: nat, size: nat) returns (r: Result<Restored>)
    modifies f`pos
    ensures r == ReadObject(f.data, offset, size)
  {
    f.Seek(offset);
    var h := ReadHeaderFrom(f);
    if !SizeCheck(h, size) {
      return Err(SizeMismatch);
    }
    var body := ReadBodyFrom(f, h);
    r := Ok(body);
  }

  /** os.path.join of a directory and a relative file name. */
  function PathJoin(dir: string, name: string): string {
    if dir == "" then name else if dir[|dir| - 1] == '/' then dir + name else dir + "/" + name
  }

  function FileName(ref: string, n: nat): string {
    ref + ("-multi-" + Decimals.Show(n))
  }

  function FileUrl(dir: string, ref: string, n: nat): string {
    PathJoin(dir, FileName(ref, n))
  }

  class FileSystemStorage {
    var files: map<string, seq<byte>>
    var directories: seq<string>
    var current: nat

    ghost predicate Valid()
      reads this
    {
      current < |directories|
    }

    constructor (paths: seq<string>, start: nat)
      requires start < |paths|
      ensures Valid() && files == map[] && directories == paths && current == start
    {
      files, directories, current := map[], paths, start;
    }

    /** Writes one file in the next directory, named after the first reference. */
    method SpillObjects(refs: seq<string>, fetched: seq<Fetched>, owners: seq<seq<byte>>) returns (r: Result<seq<string>>)
      requires Valid()
      modifies this`files, this`current
      ensures Valid()
      ensures refs == [] ==> r == Ok([]) && files == old(files) && current == old(current)
      ensures refs != [] ==>
                var os := Writable(refs, fetched, owners, Min3(|refs|, |fetched|, |owners|));
                && current == (old(current) + 1) % |directories|
                && var url := FileUrl(directories[current], refs[0], |refs|);
                && files == old(files)[url := Fuse(Payloads(os))]
                && (r.Ok? ==> |os| == Min3(|refs|, |fetched|, |owners|) && r.value == Keys(url, Payloads(os)))
                && (r.Err? ==> |os| < Min3(|refs|, |fetched|, |owners|))
    {
      if refs == [] {
        return Ok([]);
      }
      current := (current + 1) % |directories|;
      var url := FileUrl(directories[current], refs[0], |refs|);
      var f := new File([]);
      r := WriteMultipleObjects(f, refs, fetched, owners, url);
      files := files[url := f.data];
    }

    method RestoreUrl(urls: seq<string>, i: nat) returns (r: Result<Restored>)
      requires i < |urls|
      ensures r == Answers(files, urls)[i]
    {
      AnswerAt(files, urls, i);
      var u := Url.Parse(urls[i]);
      if !u.Parsed? {
        return Err(BadUrl);
      }
      if u.base !in files {
        return Err(NoSuchFile);
      }
      var f := new File(files[u.base]);
      r := ReadFrom(f, u.offset, u.size);
    }

    /** Restores the objects named by the URLs; `restored` is what was put into the store before any error. */
    method RestoreSpilledObjects(refs: seq<string>, urls: seq<string>) returns (r: Result<nat>, restored: seq<Restored>)
      ensures restored == Successes(Answers(files, urls[..Min(|refs|, |urls|)]))
      ensures r.Ok? <==> |refs| <= |urls| && |restored| == |refs|
      ensures r.Ok? ==> r.value == TotalBytes(restored)
    {
      var total := 0;
      restored := [];
      ghost var n, answers := Min(|refs|, |urls|), Answers(files, urls);
      AnswersPrefix(files, urls, n);
      for i := 0 to |refs|
        invariant i <= |urls| && |restored| == i && total == TotalBytes(restored)
        invariant restored == Successes(answers[..i])
      {
        if i >= |urls| {
          return Err(TooFewUrls), restored;
        }
        var one := RestoreUrl(urls, i);
        NextAnswer(answers, i, n);
        if one.Err? {
          return Err(one.error), restored;
        }
        TotalSnoc(restored, one.value);
        total := total + one.value.dataSize;
        restored := restored + [one.value];
      }
      r := Ok(total);
    }
  }

  // ---------------------------------------------------------------- restoring gives back what was spilled

  /** The key of an object in a fused file restores exactly that object. */
  lemma KeyRestores(files: map<string, seq<byte>>, url: string, os: seq<Object>, i: nat)
    requires Url.ReadsBack(url) && url in files && files[url] == Fuse(Payloads(os))
    requires i < |os| && os[i].Fits()
    ensures RestoreOne(files, Key(url, Payloads(os), i)) == Ok(os[i].Back())
  {
    var ps := Payloads(os);
    Url.RoundTripIff(url, Offset(ps, i), |ps[i]|);
    var rest := PieceAt(ps, i);
    ReadPayload(Fuse(ps), Offset(ps, i), os[i], rest);
  }

  function BytesOf(os: seq<Object>, selection: seq<nat>): nat
    requires forall j :: 0 <= j < |selection| ==> selection[j] < |os|
  {
    if selection == [] then 0
    else BytesOf(os, selection[..|selection| - 1]) + |os[selection[|selection| - 1]].buf|
  }

  function KeysOf(url: string, ps: seq<seq<byte>>, selection: seq<nat>): (urls: seq<string>)
    requires forall j :: 0 <= j < |selection| ==> selection[j] < |ps|
    ensures |urls| == |selection| && forall j :: 0 <= j < |urls| ==> urls[j] == Key(url, ps, selection[j])
  {
    seq(|selection|, j requires 0 <= j < |selection| => Key(url, ps, selection[j]))
  }

  function Backs(os: seq<Object>, selection: seq<nat>): (rs: seq<Restored>)
    requires forall j :: 0 <= j < |selection| ==> selection[j] < |os|
    ensures |rs| == |selection| && forall j :: 0 <= j < |rs| ==> rs[j] == os[selection[j]].Back()
  {
    seq(|selection|, j requires 0 <= j < |selection| => os[selection[j]].Back())
  }

  /** Any selection of the keys, in any order and with repetitions, restores those objects and counts their bytes. */
  lemma SelectionRestores(files: map<string, seq<byte>>, url: string, os: seq<Object>, selection: seq<nat>)
    requires Url.ReadsBack(url) && url in files && files[url] == Fuse(Payloads(os))
    requires forall i :: 0 <= i < |os| ==> os[i].Fits()
    requires forall j :: 0 <= j < |selection| ==> selection[j] < |os|
    ensures Successes(Answers(files, KeysOf(url, Payloads(os), selection))) == Backs(os, selection)
    ensures TotalBytes(Backs(os, selection)) == BytesOf(os, selection)
  {
    var urls, backs := KeysOf(url, Payloads(os), selection), Backs(os, selection);
    forall j | 0 <= j < |selection|
      ensures Answers(files, urls)[j] == Ok(backs[j])
    {
      KeyRestores(files, url, os, selection[j]);
      AnswerAt(files, urls, j);
    }
    SuccessesAre(Answers(files, urls), backs);
    BackBytes(os, selection);
  }

  lemma {:induction false} BackBytes(os: seq<Object>, selection: seq<nat>)
    requires forall j :: 0 <= j < |selection| ==> selection[j] < |os|
    ensures TotalBytes(Backs(os, selection)) == BytesOf(os, selection)
  {
    if selection != [] {
      var n := |selection| - 1;
      BackBytes(os, selection[..n]);
      assert Backs(os, selection)[..n] == Backs(os, selection[..n]);
    }
  }

  // ---------------------------------------------------------------- any number of spills

  /** The hexadecimal form of a 28-byte object reference. */
  ghost predicate IsRef(ref: string) {
    |ref| == 56 && forall i :: 0 <= i < |ref| ==> '0' <= ref[i] <= '9' || 'a' <= ref[i] <= 'f'
  }

  lemma NameHasNoSlash(ref: string, n: nat)
    requires IsRef(ref)
    ensures '/' !in FileName(ref, n)
  {
    Url.ShowIsPlain(n, '/');
  }

  /** A directory with its final slash. */
  function Slashed(dir: string): string {
    if dir == "" || dir[|dir| - 1] == '/' then dir else dir + "/"
  }

  lemma JoinIsAppend(dir: string, name: string)
    ensures PathJoin(dir, name) == Slashed(dir) + name
  {}

  /** Equal paths have equal last segments. */
  lemma SameSegments(d: string, a: string, d': string, b: string)
    requires (d != "" ==> d[|d| - 1] == '/') && '/' !in a
    requires (d' != "" ==> d'[|d'| - 1] == '/') && '/' !in b
    requires d + a == d' + b
    ensures d == d' && a == b
  {
    var url := d + a;
    NotLonger(url, d, a, d', b);
    NotLonger(url, d', b, d, a);
    assert url[..|d|] == d && url[..|d'|] == d' && url[|d|..] == a && url[|d'|..] == b;
  }

  lemma NotLonger(url: string, d: string, a: string, d': string, b: string)
    requires url == d + a == d' + b && (d != "" ==> d[|d| - 1] == '/') && '/' !in b
    ensures |d| <= |d'|
  {
    assert d != "" ==> url[|d| - 1] == '/';
    assert forall k :: |d'| <= k < |url| ==> url[k] == b[k - |d'|];
  }

  lemma SameNames(ref: string, n: nat, ref': string, n': nat)
    requires |ref| == |ref'|
    ensures FileName(ref, n) == FileName(ref', n') <==> ref == ref' && n == n'
  {
    var a, b := FileName(ref, n), FileName(ref', n');
    if a == b {
      assert a[..|ref|] == ref && b[..|ref|] == ref';
      assert a[|ref| + 7..] == Decimals.Show(n) && b[|ref| + 7..] == Decimals.Show(n');
      Decimals.ShowInjective(n, n');
    }
  }

  /** One call of the spiller that succeeded: the directory it chose, its first reference, the number of references and the objects written. */
  datatype Batch = Batch(dir: string, ref: string, count: nat, objects: seq<Object>) {
    function Url(): string {
      FileUrl(dir, ref, count)
    }
  }

  predicate SameName(a: Batch, b: Batch) {
    Slashed(a.dir) == Slashed(b.dir) && a.ref == b.ref && a.count == b.count
  }

  /** Two spills write the same file exactly when directory, first reference and count agree. */
  lemma SameUrlIff(a: Batch, b: Batch)
    requires IsRef(a.ref) && IsRef(b.ref)
    ensures a.Url() == b.Url() <==> SameName(a, b)
  {
    JoinIsAppend(a.dir, FileName(a.ref, a.count));
    JoinIsAppend(b.dir, FileName(b.ref, b.count));
    NameHasNoSlash(a.ref, a.count);
    NameHasNoSlash(b.ref, b.count);
    SameNames(a.ref, a.count, b.ref, b.count);
    if a.Url() == b.Url() {
      SameSegments(Slashed(a.dir), FileName(a.ref, a.count), Slashed(b.dir), FileName(b.ref, b.count));
    }
  }

  /** Keys read back in every directory, relative or absolute, without marks, a scheme and two leading slashes. */
  lemma FileUrlReadsBack(b: Batch)
    requires IsRef(b.ref) && '?' !in b.dir && '#' !in b.dir && !("//" <= b.dir)
    requires ':' !in b.dir || b.dir[0] == '/'
    ensures Url.ReadsBack(b.Url())
  {
    var name, d := FileName(b.ref, b.count), Slashed(b.dir);
    JoinIsAppend(b.dir, name);
    NameIsPlain(b.ref, b.count);
    var url := d + name;
    assert url[|url| - 1] == name[|name| - 1];
    assert !("//" <= url) by {
      assert |d| > 1 ==> url[0] == d[0] && url[1] == d[1];
      assert |d| == 1 ==> url[1] == name[0];
      assert |d| == 0 ==> url[0] == name[0];
    }
    if ':' in b.dir {
      assert url[0] == '/' && !Url.IsSchemeChar('/');
    } else {
      assert ':' !in url;
    }
    Url.PathReadsBack(url);
  }

  lemma NameIsPlain(ref: string, n: nat)
    requires IsRef(ref)
    ensures var name := FileName(ref, n);
            |name| > 0 && name[0] != '/' && name[|name| - 1] != ';' && '?' !in name && '#' !in name && ':' !in name
  {
    var name, digits := FileName(ref, n), Decimals.Show(n);
    Url.ShowIsPlain(n, '?');
    Url.ShowIsPlain(n, '#');
    Url.ShowIsPlain(n, ':');
    assert name[|name| - 1] == digits[|digits| - 1];
  }

  // ---------------------------------------------------------------- which file is left

  function Urls(batches: seq<Batch>): (us: seq<string>)
    ensures |us| == |batches| && forall i :: 0 <= i < |us| ==> us[i] == batches[i].Url()
  {
    seq(|batches|, i requires 0 <= i < |batches| => batches[i].Url())
  }

  function Contents(batches: seq<Batch>): (cs: seq<seq<byte>>)
    ensures |cs| == |batches| && forall i :: 0 <= i < |cs| ==> cs[i] == Fuse(Payloads(batches[i].objects))
  {
    seq(|batches|, i requires 0 <= i < |batches| => Fuse(Payloads(batches[i].objects)))
  }

  /** The files after writing each content under its URL, in order. */
  function FilesAfter(files: map<string, seq<byte>>, urls: seq<string>, contents: seq<seq<byte>>): map<string, seq<byte>>
    requires |urls| == |contents|
    decreases |urls|
  {
    if urls == [] then files
    else FilesAfter(files[urls[0] := contents[0]], urls[1..], contents[1..])
  }

  lemma {:induction false} LastWriteStays(files: map<string, seq<byte>>, urls: seq<string>, contents: seq<seq<byte>>, url: string)
    requires |urls| == |contents| && url !in urls && url in files
    ensures var after := FilesAfter(files, urls, contents); url in after && after[url] == files[url]
    decreases |urls|
  {
    if urls != [] {
      LastWriteStays(files[urls[0] := contents[0]], urls[1..], contents[1..], url);
    }
  }

  lemma {:induction false} WriteStays(files: map<string, seq<byte>>, urls: seq<string>, contents: seq<seq<byte>>, k: nat)
    requires |urls| == |contents| && k < |urls|
    requires forall j :: k < j < |urls| ==> urls[j] != urls[k]
    ensures var after := FilesAfter(files, urls, contents); urls[k] in after && after[urls[k]] == contents[k]
    decreases |urls|
  {
    if k == 0 {
      LastWriteStays(files[urls[0] := contents[0]], urls[1..], contents[1..], urls[0]);
    } else {
      WriteStays(files[urls[0] := contents[0]], urls[1..], contents[1..], k - 1);
    }
  }

  /** Spill `j` is the last one that wrote the file of spill `k`. */
  ghost predicate IsLastWriter(batches: seq<Batch>, k: nat, j: nat) {
    && k < |batches| && j < |batches| && batches[j].Url() == batches[k].Url()
    && forall l :: j < l < |batches| ==> batches[l].Url() != batches[k].Url()
  }

  ghost function After(files: map<string, seq<byte>>, batches: seq<Batch>): map<string, seq<byte>> {
    FilesAfter(files, Urls(batches), Contents(batches))
  }

  /** Whatever was spilled, a key is answered from the file of the last spill that wrote its URL. */
  lemma KeyReadsLastWriter(files: map<string, seq<byte>>, batches: seq<Batch>, k: nat, j: nat, i: nat)
    requires IsLastWriter(batches, k, j) && Url.ReadsBack(batches[k].Url()) && i < |batches[k].objects|
    ensures var ps := Payloads(batches[k].objects);
            RestoreOne(After(files, batches), Key(batches[k].Url(), ps, i)) ==
            ReadObject(Fuse(Payloads(batches[j].objects)), Offset(ps, i), |ps[i]|)
  {
    var ps, url := Payloads(batches[k].objects), batches[k].Url();
    WriteStays(files, Urls(batches), Contents(batches), j);
    Url.RoundTripIff(url, Offset(ps, i), |ps[i]|);
  }

  /** However many spills follow, every key still restores its object as long as no later spill has the same directory, first reference and count. */
  lemma LaterSpillsKeepObjects(files: map<string, seq<byte>>, batches: seq<Batch>, k: nat, i: nat)
    requires forall j :: 0 <= j < |batches| ==> IsRef(batches[j].ref)
    requires k < |batches| && Url.ReadsBack(batches[k].Url()) && i < |batches[k].objects| && batches[k].objects[i].Fits()
    requires forall j :: k < j < |batches| ==> !SameName(batches[j], batches[k])
    ensures RestoreOne(After(files, batches), Key(batches[k].Url(), Payloads(batches[k].objects), i)) ==
            Ok(batches[k].objects[i].Back())
  {
    forall j | k < j < |batches|
      ensures batches[j].Url() != batches[k].Url()
    {
      SameUrlIff(batches[j], batches[k]);
    }
    KeyReadsLastWriter(files, batches, k, k, i);
    var ps := Payloads(batches[k].objects);
    var rest := PieceAt(ps, i);
    ReadPayload(Fuse(ps), Offset(ps, i), batches[k].objects[i], rest);
  }

  /**
   A later spill under the same name overwrites the file. A key then restores its object exactly when
   the last such spill wrote that object's payload at the same offset, or the object is empty in all
   its parts and the new file ends inside the header, in zero bytes, or before it.
   */
  lemma OverwrittenKeyIff(files: map<string, seq<byte>>, batches: seq<Batch>, k: nat, j: nat, i: nat)
    requires IsLastWriter(batches, k, j) && Url.ReadsBack(batches[k].Url())
    requires i < |batches[k].objects| && batches[k].objects[i].Fits()
    ensures var ps, o := Payloads(batches[k].objects), batches[k].objects[i];
            var data, at := Fuse(Payloads(batches[j].objects)), Offset(ps, i);
            RestoreOne(After(files, batches), Key(batches[k].Url(), ps, i)) == Ok(o.Back()) <==>
            Holds(data, at, o.Payload()) || (o == Object([], [], []) && EndsInZeros(data, at))
  {
    var ps, o := Payloads(batches[k].objects), batches[k].objects[i];
    KeyReadsLastWriter(files, batches, k, j, i);
    ReadsObjectIff(Fuse(Payloads(batches[j].objects)), Offset(ps, i), o);
  }

  lemma SharedOffset(os: seq<Object>, os': seq<Object>, i: nat)
    requires i <= |os| && i <= |os'| && os[..i] == os'[..i]
    ensures Offset(Payloads(os), i) == Offset(Payloads(os'), i)
  {
    var ps, ps' := Payloads(os), Payloads(os');
    assert ps[..i] == Payloads(os[..i]) == ps'[..i];
    OffsetPrefix(ps, i, i);
    OffsetPrefix(ps', i, i);
  }

  /** Behind objects that both spills share, a key restores its object exactly when the later spill wrote the same one. */
  lemma ReplacedObjectIff(files: map<string, seq<byte>>, batches: seq<Batch>, k: nat, j: nat, i: nat)
    requires IsLastWriter(batches, k, j) && Url.ReadsBack(batches[k].Url())
    requires i < |batches[k].objects| && i < |batches[j].objects| && batches[j].objects[i].Fits()
    requires batches[k].objects[..i] == batches[j].objects[..i]
    ensures (RestoreOne(After(files, batches), Key(batches[k].Url(), Payloads(batches[k].objects), i)) ==
             Ok(batches[k].objects[i].Back())) <==> batches[j].objects[i] == batches[k].objects[i]
  {
    var o, o' := batches[k].objects[i], batches[j].objects[i];
    var ps := Payloads(batches[j].objects);
    SharedOffset(batches[k].objects, batches[j].objects, i);
    KeyReadsLastWriter(files, batches, k, j, i);
    var rest := PieceAt(ps, i);
    ReadPayload(Fuse(ps), Offset(ps, i), o', rest);
    SizeDecides(Fuse(ps), Offset(ps, i), |o'.Payload()|, |o.Payload()|);
    assert o == o' <==> o.Back() == o'.Back();
  }

  /** Past the end of any file an empty object passes the size check and is restored. */
  lemma EmptyObjectPastEnd(data: seq<byte>, at: nat)
    requires |data| <= at
    ensures ReadObject(data, at, HEADER_LENGTH) == Ok(Object([], [], []).Back())
  {
    var o := Object([], [], []);
    assert |o.Payload()| == HEADER_LENGTH;
    assert o.Fits() by { assert Pow256(8) > 0; }
    ReadsObjectIff(data, at, o);
  }

  /** Reading with a size other than the stored one fails the size check. */
  lemma SizeDecides(data: seq<byte>, at: nat, size: nat, other: nat)
    requires ReadObject(data, at, size).Ok?
    ensures ReadObject(data, at, other) == if other == size then ReadObject(data, at, size) else Err(SizeMismatch)
  {}
}
