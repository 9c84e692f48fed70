/** Seeking in a block list, against a linear scan; and the file around the blocks. */
module PositionSeek {
  import opened Outcomes
  import opened Varints
  import opened PositionStreams
  import opened PositionBlocks

  // ----- the linear scan -----

  /** `r` is the first position at or above `target`. */
  ghost predicate FirstFrom(ps: seq<nat>, target: nat, r: Option<nat>) {
    && (r.Some? ==> r.value in ps && r.value >= target && forall p | p in ps && p >= target :: r.value <= p)
    && (r.None? ==> forall p | p in ps :: p < target)
  }

  lemma FirstIsUnique(ps: seq<nat>, target: nat, a: Option<nat>, b: Option<nat>)
    requires FirstFrom(ps, target, a) && FirstFrom(ps, target, b)
    ensures a == b
  {
  }

  method LinearSeek(ps: seq<nat>, target: nat) returns (r: Option<nat>)
    requires Steps(ps, 0, true)
    ensures FirstFrom(ps, target, r)
  {
    StepsIncrease(ps, 0, true);
    var i := 0;
    while i < |ps|
      invariant i <= |ps| && forall k | 0 <= k < i :: ps[k] < target
    {
      if ps[i] >= target {
        return Some(ps[i]);
      }
      i := i + 1;
    }
    return None;
  }

  // ----- one block -----

  datatype Found = Found(position: Option<nat>, decoded: nat)

  /** Decodes the whole block with one forward cursor, remembering the first hit. */
  method Decode(v: View, i: nat, target: nat) returns (r: Result<Found, CodecError>)
    requires i < |v.directory| && BlocksFor(v.count) == |v.directory|
    requires v.directory[i].start <= v.directory[i].end <= |v.payload|
    ensures r.Ok? <==> DecodeBlock(v, i).Ok?
    ensures r.Err? ==> DecodeBlock(v, i) == Err(r.error)
    ensures r.Ok? ==>
              FirstFrom(DecodeBlock(v, i).value, target, r.value.position) &&
              r.value.decoded == |DecodeBlock(v, i).value| <= BLOCK
  {
    hide ReadVar, ReadDeltas, Resumes, FirstFrom;
    var b := v.directory[i];
    var part := v.payload[b.start..b.end];
    var n := BlockLength(v.count, i);
    var reader := new Reader(part);
    var position: nat := b.first;
    var found := if position >= target then Some(position) else None;
    var left: nat := n - 1;
    ghost var ps: seq<nat> := [b.first];
    ghost var whole := ReadDeltas(part, 0, n - 1, b.first, false);
    StartResumes(whole, [b.first], target);
    while left > 0
      invariant reader.Valid() && reader.bytes == part && left <= n - 1
      invariant ps != [] && ps[0] == b.first && position == ps[|ps| - 1] && |ps| == n - left
      invariant Resumes(whole, ps[1..], ReadDeltas(part, reader.offset, left, position, false))
      invariant FirstFrom(ps, target, found) && forall p | p in ps :: p <= position
    {
      ResumeOne(part, reader.offset, left, position, whole, ps);
      var delta := reader.VarU32();
      if delta.Err? {
        return Err(delta.error);
      }
      if delta.value == 0 {
        return Err(InvalidOrder);
      }
      if position + delta.value >= LIMIT {
        return Err(Overflow);
      }
      position := position + delta.value;
      FirstNext(ps, target, found, position);
      if found.None? && position >= target {
        found := Some(position);
      }
      ps := ps + [position];
      left := left - 1;
    }
    assert ps == [b.first] + ps[1..];
    EndResumes(part, reader.offset, position, whole, ps[1..]);
    if reader.offset != |part| {
      return Err(TrailingBytes);
    }
    if position != b.last {
      return Err(InvalidValue);
    }
    return Ok(Found(found, n));
  }

  lemma StartResumes(whole: Result<(seq<nat>, nat), CodecError>, ps: seq<nat>, target: nat)
    requires |ps| == 1
    ensures Resumes(whole, ps[1..], whole)
    ensures FirstFrom(ps, target, if ps[0] >= target then Some(ps[0]) else None)
  {
    assert whole.Ok? ==> ps[1..] + whole.value.0 == whole.value.0;
  }

  lemma EndResumes(bytes: seq<Byte>, o: nat, position: nat, whole: Result<(seq<nat>, nat), CodecError>, ps: seq<nat>)
    requires Resumes(whole, ps, ReadDeltas(bytes, o, 0, position, false))
    ensures whole == Ok((ps, o))
  {
    assert ps + [] == ps;
  }

  /** One more delta: an error of the whole, or a longer prefix of it. */
  lemma ResumeOne(bytes: seq<Byte>, o: nat, left: nat, position: nat, whole: Result<(seq<nat>, nat), CodecError>,
      ps: seq<nat>)
    requires left > 0 && ps != [] && Resumes(whole, ps[1..], ReadDeltas(bytes, o, left, position, false))
    ensures var d := ReadVar(bytes, o);
            if d.Err? then whole == Err(d.error)
            else if d.value.0 == 0 then whole == Err(InvalidOrder)
            else if position + d.value.0 >= LIMIT then whole == Err(Overflow)
            else var p := position + d.value.0;
                 Resumes(whole, (ps + [p])[1..], ReadDeltas(bytes, d.value.1, left - 1, p, false))
  {
    hide ReadVar;
    var d := ReadVar(bytes, o);
    if d.Ok? && d.value.0 != 0 && position + d.value.0 < LIMIT {
      var p := position + d.value.0;
      var rest := ReadDeltas(bytes, d.value.1, left - 1, p, false);
      assert (ps + [p])[1..] == ps[1..] + [p];
      assert rest.Ok? ==> ps[1..] + ([p] + rest.value.0) == (ps[1..] + [p]) + rest.value.0;
    }
  }

  lemma FirstNext(ps: seq<nat>, target: nat, found: Option<nat>, p: nat)
    requires FirstFrom(ps, target, found) && forall q | q in ps :: q <= p
    ensures FirstFrom(ps + [p], target, if found.None? && p >= target then Some(p) else found)
  {
  }

  // ----- the whole list -----

  /** Binary search on the directory's last positions, then one block. */
  method Seek(v: View, target: nat) returns (r: Result<Found, CodecError>, ghost at: nat)
    requires Opens(v)
    ensures at <= |v.directory| && (forall i | 0 <= i < |v.directory| :: v.directory[i].last < target <==> i < at)
    ensures at == |v.directory| ==> r == Ok(Found(None, 0))
    ensures at < |v.directory| ==> EntryOk(v, at)
    ensures at < |v.directory| ==> (r.Ok? <==> DecodeBlock(v, at).Ok?)
    ensures at < |v.directory| && r.Ok? ==>
              FirstFrom(DecodeBlock(v, at).value, target, r.value.position) && r.value.decoded <= BLOCK
  {
    hide DecodeBlock, FirstFrom;
    var low, high := 0, |v.directory|;
    while low < high
      invariant low <= high <= |v.directory|
      invariant forall i | 0 <= i < low :: v.directory[i].last < target
      invariant forall i | high <= i < |v.directory| :: v.directory[i].last >= target
    {
      var middle := low + (high - low) / 2;
      if v.directory[middle].last < target {
        forall i | 0 <= i < middle ensures v.directory[i].last < target {
          LastsRise(v, i, middle);
          assert EntryOk(v, middle);
        }
        low := middle + 1;
      } else {
        forall i | middle < i < |v.directory| ensures v.directory[i].last >= target {
          LastsRise(v, middle, i);
          assert EntryOk(v, i);
        }
        high := middle;
      }
    }
    at := low;
    if low == |v.directory| {
      return Ok(Found(None, 0)), at;
    }
    assert EntryOk(v, low);
    r := Decode(v, low, target);
  }

  /** The block that a target falls into answers for the whole list. */
  lemma BlockAnswers(cs: seq<seq<nat>>, target: nat, at: nat, r: Option<nat>)
    requires ChunksOk(cs) && at <= |cs|
    requires forall i | 0 <= i < |cs| :: cs[i] != [] && (LastOf(cs[i]) < target <==> i < at)
    requires if at == |cs| then r.None? else FirstFrom(cs[at], target, r)
    ensures FirstFrom(Flat(cs), target, r)
  {
    if at < |cs| {
      assert LastOf(cs[at]) in cs[at];
      assert r.Some?;
      FlatMembers(cs, r.value);
      assert r.value in cs[at];
    }
    forall p | p in Flat(cs) && p >= target ensures at < |cs| && r.value <= p {
      FlatMembers(cs, p);
      var i :| 0 <= i < |cs| && p in cs[i];
      ChunkBounds(cs[i], p);
      assert i >= at;
      if i > at {
        ChunkBounds(cs[at], r.value);
        assert LastOf(cs[at]) < cs[i][0];
      }
    }
  }

  /**
   On an encoded list, seeking answers as a linear scan does and decodes at most one block.
   */
  method SeekEncoded(v: View, ghost ps: seq<nat>, target: nat) returns (r: Result<Found, CodecError>)
    requires Steps(ps, 0, true) && ChunksOk(Chunks(ps)) && v == EncodeChunks(Chunks(ps))
    ensures r.Ok? && FirstFrom(ps, target, r.value.position) && r.value.decoded <= BLOCK
  {
    hide EncodeChunks, Chunks, ChunksOk, Opens, DecodeBlock, FirstFrom, Flat;
    ghost var cs := Chunks(ps);
    EncodedOpens(cs);
    EncodedCount(cs);
    ghost var at;
    r, at := Seek(v, target);
    EveryEntry(cs);
    ChunksNonempty(cs);
    if at < |cs| {
      EncodedDecodes(cs, at);
    }
    BlockAnswers(cs, target, at, r.value.position);
    FlatChunks(ps);
  }

  lemma EveryEntry(cs: seq<seq<nat>>)
    requires ChunksOk(cs)
    ensures |EncodeChunks(cs).directory| == |cs|
    ensures forall i | 0 <= i < |cs| :: cs[i] != [] && EncodeChunks(cs).directory[i].last == LastOf(cs[i])
  {
    hide EncodeChunks;
    ChunksNonempty(cs);
    EncodedCount(cs);
    forall i | 0 <= i < |cs| ensures EncodeChunks(cs).directory[i].last == LastOf(cs[i]) {
      EncodedChunk(cs, i);
    }
  }

  method ValidateAll(v: View) returns (ok: bool)
    requires Opens(v)
    ensures ok <==> AllDecode(v)
  {
    hide DecodeBlock;
    var i := 0;
    while i < |v.directory|
      invariant i <= |v.directory|
      invariant forall k | 0 <= k < i :: EntryOk(v, k) && DecodeBlock(v, k).Ok?
    {
      assert EntryOk(v, i);
      var r := Decode(v, i, 0);
      if r.Err? {
        return false;
      }
      i := i + 1;
    }
    return true;
  }

  // ----- encoding -----

  lemma NextChunk(ps: seq<nat>, m: nat, k: nat, end: nat)
    requires m == k * BLOCK && m < end <= |ps| && end <= m + BLOCK
    ensures Chunks(ps[..end]) == Chunks(ps[..m]) + [ps[m..end]]
  {
    var part := ps[..end];
    assert (|part| - 1) / BLOCK == k;
    assert part[..m] == ps[..m] && part[m..] == ps[m..end];
  }

  method EncodeBody(c: seq<nat>) returns (r: seq<Byte>)
    requires ChunkOk(c)
    ensures r == Body(c)
  {
    hide EncodeVar, Deltas;
    r := [];
    var k := 1;
    while k < |c|
      invariant 1 <= k <= |c| && Steps(c[k..], c[k - 1], false)
      invariant r + Deltas(c[k..], c[k - 1], false) == Deltas(c[1..], c[0], false)
    {
      NextDelta(c[k..], c[k - 1], false);
      var delta := WriteVar(c[k] - c[k - 1]);
      assert c[k..][1..] == c[k + 1..];
      assert r + (delta + Deltas(c[k + 1..], c[k], false)) == (r + delta) + Deltas(c[k + 1..], c[k], false);
      r := r + delta;
      k := k + 1;
    }
    NoDeltas(c[|c| - 1], false);
    assert r + [] == r;
  }

  /** Deltas take no more bytes than the distance they cover. */
  lemma {:induction false} DeltasShort(ps: seq<nat>, previous: nat)
    requires Steps(ps, previous, false)
    ensures ps != [] ==> |Deltas(ps, previous, false)| + previous <= ps[|ps| - 1]
    decreases |ps|
  {
    hide EncodeVar;
    if ps != [] {
      EncodedShort(ps[0] - previous);
      DeltasShort(ps[1..], ps[0]);
    }
  }

  lemma BodyShort(c: seq<nat>)
    requires ChunkOk(c)
    ensures |Body(c)| + c[0] <= LastOf(c) < LIMIT
  {
    hide Deltas;
    DeltasShort(c[1..], c[0]);
    NoDeltas(c[0], false);
    ChunkBounds(c, c[|c| - 1]);
  }

  /** The payload of any list stays below its last position, so its extents fit their fields. */
  lemma {:induction false} PayloadShort(cs: seq<seq<nat>>)
    requires ChunksOk(cs) && cs != []
    ensures cs[0] != [] && |EncodeChunks(cs).payload| + cs[0][0] <= LastOf(cs[|cs| - 1]) < LIMIT
    decreases |cs|
  {
    hide ChunksOk, ChunkOk, Body;
    InitOk(cs);
    ChunksNonempty(cs);
    var init, c := cs[..|cs| - 1], cs[|cs| - 1];
    BodyShort(c);
    EncodeOneMore(cs);
    if init == [] {
      NothingEncoded();
    } else {
      PayloadShort(init);
      ChunksRise(cs, |cs| - 2);
    }
  }

  lemma NothingEncoded()
    ensures EncodeChunks([]).payload == []
  {
  }

  lemma ChunksRise(cs: seq<seq<nat>>, i: nat)
    requires ChunksOk(cs) && i + 1 < |cs|
    ensures cs[i] != [] && cs[i + 1] != [] && LastOf(cs[i]) < cs[i + 1][0]
  {
    hide Steps;
    ChunksNonempty(cs);
  }

  /** Every entry of an encoded list fits its fields. */
  lemma EncodedFits(cs: seq<seq<nat>>)
    requires ChunksOk(cs)
    ensures forall i | 0 <= i < |EncodeChunks(cs).directory| :: Fits(EncodeChunks(cs).directory[i])
    ensures |EncodeChunks(cs).payload| < LIMIT && BlocksFor(EncodeChunks(cs).count) == |EncodeChunks(cs).directory|
  {
    hide ChunksOk, ChunkOk, EncodeChunks, Body, Flat;
    EncodedCount(cs);
    FlatLength(cs);
    ChunksNonempty(cs);
    if cs == [] {
      NothingEncoded();
    } else {
      PayloadShort(cs);
    }
    forall i | 0 <= i < |cs| ensures Fits(EncodeChunks(cs).directory[i]) {
      EncodedChunk(cs, i);
      ChunkAt(cs, i);
      ChunkBounds(cs[i], cs[i][0]);
    }
  }

  lemma ChunkAt(cs: seq<seq<nat>>, i: nat)
    requires ChunksOk(cs) && i < |cs|
    ensures ChunkOk(cs[i])
  {
  }

  /**
   Checks count and order, then encodes. It fails exactly on a list that is too long or not
   increasing; what it writes fits the fields of the file.
   */
  method EncodeList(ps: seq<nat>, maxPositions: nat) returns (r: Result<View, CodecError>)
    requires forall i | 0 <= i < |ps| :: ps[i] < LIMIT
    ensures |ps| >= LIMIT || |ps| > maxPositions <==> r == Err(LimitExceeded)
    ensures r.Ok? <==> |ps| < LIMIT && |ps| <= maxPositions && Steps(ps, 0, true)
    ensures r.Ok? ==> ChunksOk(Chunks(ps)) && r.value == EncodeChunks(Chunks(ps)) && r.value.count == |ps|
    ensures r.Ok? ==> |r.value.payload| < LIMIT && forall i | 0 <= i < |r.value.directory| :: Fits(r.value.directory[i])
  {
    hide Steps, Chunks, ChunksOk, EncodeChunks;
    if |ps| >= LIMIT || |ps| > maxPositions {
      return Err(LimitExceeded);
    }
    var increasing := CheckOrder(ps);
    if !increasing {
      return Err(InvalidOrder);
    }
    var v := EncodeBlocks(ps);
    EncodedFits(Chunks(ps));
    r := Ok(v);
  }

  /** Cuts the list into blocks and writes directory and payload side by side. */
  method EncodeBlocks(ps: seq<nat>) returns (v: View)
    requires Steps(ps, 0, true)
    ensures ChunksOk(Chunks(ps)) && v == EncodeChunks(Chunks(ps)) && v.count == |ps|
  {
    hide Steps, Body, Chunks, ChunksOk, EncodeChunks, ChunkOk;
    ChunksAreOk(ps);
    var directory: seq<Block> := [];
    var payload: seq<Byte> := [];
    var m, k := 0, 0;
    StartEncoding(ps);
    while m < |ps|
      invariant m <= |ps| && (m == k * BLOCK || m == |ps|)
      invariant ChunksOk(Chunks(ps[..m])) && View(directory, payload, m) == EncodeChunks(Chunks(ps[..m]))
    {
      var end := if m + BLOCK < |ps| then m + BLOCK else |ps|;
      var c := ps[m..end];
      PrefixSteps(ps, end);
      PrefixSteps(ps, m);
      ChunksAreOk(ps[..end]);
      NextChunk(ps, m, k, end);
      EncodeOneMore(Chunks(ps[..end]));
      assert Chunks(ps[..end])[..|Chunks(ps[..end])| - 1] == Chunks(ps[..m]);
      var body := EncodeBody(c);
      ChunkShape(c);
      directory := directory + [Block(c[0], c[|c| - 1], |payload|, |payload| + |body|)];
      payload := payload + body;
      m, k := end, k + 1;
    }
    assert ps[..m] == ps;
    v := View(directory, payload, |ps|);
  }

  lemma ChunkShape(c: seq<nat>)
    requires ChunkOk(c)
    ensures c != []
  {
  }

  lemma StartEncoding(ps: seq<nat>)
    ensures ChunksOk(Chunks(ps[..0])) && EncodeChunks(Chunks(ps[..0])) == View([], [], 0)
  {
    assert Chunks(ps[..0]) == [];
  }

  lemma PrefixSteps(ps: seq<nat>, m: nat)
    requires Steps(ps, 0, true) && m <= |ps|
    ensures Steps(ps[..m], 0, true)
  {
    StepsIncrease(ps, 0, true);
    StepsIncrease(ps[..m], 0, true);
  }

  // ----- the file -----

  const MAGIC: seq<Byte> := [0x50, 0x42, 0x30, 0x31]

  function EntryBytes(b: Block): (r: seq<Byte>)
    requires Fits(b)
    ensures |r| == 16
  {
    EncodeU32(b.first) + EncodeU32(b.last) + EncodeU32(b.start) + EncodeU32(b.end)
  }

  function EntryOf(bytes: seq<Byte>): (b: Block)
    requires |bytes| == 16
    ensures Fits(b)
  {
    Block(ValueU32(bytes[0..4]), ValueU32(bytes[4..8]), ValueU32(bytes[8..12]), ValueU32(bytes[12..16]))
  }

  predicate Fits(b: Block) {
    b.first < LIMIT && b.last < LIMIT && b.start < LIMIT && b.end < LIMIT
  }

  lemma EntryReadsBack(b: Block)
    requires Fits(b)
    ensures EntryOf(EntryBytes(b)) == b
  {
    hide EncodeU32, ValueU32;
    var e := EntryBytes(b);
    U32ReadsBack(b.first);
    U32ReadsBack(b.last);
    U32ReadsBack(b.start);
    U32ReadsBack(b.end);
    assert e[0..4] == EncodeU32(b.first) && e[4..8] == EncodeU32(b.last);
    assert e[8..12] == EncodeU32(b.start) && e[12..16] == EncodeU32(b.end);
  }

  lemma EntryIsCanonical(bytes: seq<Byte>)
    requires |bytes| == 16
    ensures EntryBytes(EntryOf(bytes)) == bytes
  {
    hide EncodeU32, ValueU32;
    U32IsCanonical(bytes[0..4]);
    U32IsCanonical(bytes[4..8]);
    U32IsCanonical(bytes[8..12]);
    U32IsCanonical(bytes[12..16]);
    assert bytes == bytes[0..4] + bytes[4..8] + bytes[8..12] + bytes[12..16];
  }

  function DirectoryBytes(blocks: seq<Block>): (r: seq<Byte>)
    requires forall i | 0 <= i < |blocks| :: Fits(blocks[i])
    ensures |r| == 16 * |blocks|
  {
    if blocks == [] then [] else DirectoryBytes(blocks[..|blocks| - 1]) + EntryBytes(blocks[|blocks| - 1])
  }

  function DirectoryOf(bytes: seq<Byte>, n: nat): (r: seq<Block>)
    requires |bytes| == 16 * n
    ensures |r| == n && forall i | 0 <= i < n :: Fits(r[i])
    decreases n
  {
    if n == 0 then [] else DirectoryOf(bytes[..16 * (n - 1)], n - 1) + [EntryOf(bytes[16 * (n - 1)..])]
  }

  lemma {:induction false} DirectoryReadsBack(blocks: seq<Block>)
    requires forall i | 0 <= i < |blocks| :: Fits(blocks[i])
    ensures DirectoryOf(DirectoryBytes(blocks), |blocks|) == blocks
    decreases |blocks|
  {
    hide EntryBytes, EntryOf;
    if blocks != [] {
      var n := |blocks|;
      DirectoryReadsBack(blocks[..n - 1]);
      EntryReadsBack(blocks[n - 1]);
      var bytes := DirectoryBytes(blocks);
      assert bytes[..16 * (n - 1)] == DirectoryBytes(blocks[..n - 1]);
      assert bytes[16 * (n - 1)..] == EntryBytes(blocks[n - 1]);
      assert blocks == blocks[..n - 1] + [blocks[n - 1]];
    }
  }

  lemma {:induction false} DirectoryIsCanonical(bytes: seq<Byte>, n: nat)
    requires |bytes| == 16 * n
    ensures DirectoryBytes(DirectoryOf(bytes, n)) == bytes
    decreases n
  {
    hide EntryBytes, EntryOf;
    if n > 0 {
      var head := bytes[..16 * (n - 1)];
      DirectoryIsCanonical(head, n - 1);
      EntryIsCanonical(bytes[16 * (n - 1)..]);
      assert DirectoryOf(bytes, n)[..n - 1] == DirectoryOf(head, n - 1);
    }
  }

  function FileBytes(v: View): seq<Byte>
    requires v.count < LIMIT && forall i | 0 <= i < |v.directory| :: Fits(v.directory[i])
  {
    MAGIC + EncodeU32(v.count) + DirectoryBytes(v.directory) + v.payload
  }

  /** The four bytes from `o` on hold `v`, least significant byte first. */
  predicate HoldsWord(bytes: seq<Byte>, o: nat, v: nat) {
    && o + 4 <= |bytes|
    && (var b0: nat, b1: nat, b2: nat, b3: nat := bytes[o], bytes[o + 1], bytes[o + 2], bytes[o + 3];
        v == b0 + 0x100 * b1 + 0x1_0000 * b2 + 0x100_0000 * b3)
  }

  lemma WordHolds(v: nat)
    requires v < LIMIT
    ensures HoldsWord(EncodeU32(v), 0, v)
  {
    var a, b, c := v / 256, v / 256 / 256, v / 256 / 256 / 256;
    var e, f, g := EncodeField(a, 3), EncodeField(b, 2), EncodeField(c, 1);
    assert EncodeU32(v) == [v % 256] + e && e == [a % 256] + f && f == [b % 256] + g && g == [c % 256];
    assert EncodeU32(v)[1] == e[0] && EncodeU32(v)[2] == e[1] == f[0] && EncodeU32(v)[3] == e[2] == f[1] == g[0];
  }

  lemma HeldWithin(bytes: seq<Byte>, part: seq<Byte>, base: nat, o: nat, v: nat)
    requires base + |part| <= |bytes| && bytes[base..base + |part|] == part && HoldsWord(part, o, v)
    ensures HoldsWord(bytes, base + o, v)
  {
    assert forall k | 0 <= k < |part| :: part[k] == bytes[base + k];
  }

  lemma EntryLayout(b: Block)
    requires Fits(b)
    ensures var e := EntryBytes(b);
            HoldsWord(e, 0, b.first) && HoldsWord(e, 4, b.last) && HoldsWord(e, 8, b.start) && HoldsWord(e, 12, b.end)
  {
    hide EncodeU32, HoldsWord;
    var e := EntryBytes(b);
    var p0, p1, p2, p3 := EncodeU32(b.first), EncodeU32(b.last), EncodeU32(b.start), EncodeU32(b.end);
    WordHolds(b.first);
    WordHolds(b.last);
    WordHolds(b.start);
    WordHolds(b.end);
    assert e[0..0 + |p0|] == p0 && e[4..4 + |p1|] == p1 && e[8..8 + |p2|] == p2 && e[12..12 + |p3|] == p3;
    HeldWithin(e, p0, 0, 0, b.first);
    HeldWithin(e, p1, 4, 0, b.last);
    HeldWithin(e, p2, 8, 0, b.start);
    HeldWithin(e, p3, 12, 0, b.end);
  }

  lemma {:induction false} EntryInDirectory(blocks: seq<Block>, i: nat)
    requires (forall k | 0 <= k < |blocks| :: Fits(blocks[k])) && i < |blocks|
    ensures DirectoryBytes(blocks)[16 * i..16 * i + 16] == EntryBytes(blocks[i])
    decreases |blocks|
  {
    hide EntryBytes;
    var n := |blocks|;
    var head := DirectoryBytes(blocks[..n - 1]);
    if i == n - 1 {
      assert DirectoryBytes(blocks) == head + EntryBytes(blocks[i]);
    } else {
      EntryInDirectory(blocks[..n - 1], i);
      assert DirectoryBytes(blocks)[16 * i..16 * i + 16] == head[16 * i..16 * i + 16];
    }
  }

  /**
   The layout of a file: four fixed bytes, the count, sixteen bytes for each block with its
   first and last position and the ends of its extent, and the payload.
   */
  lemma FileLayout(v: View)
    requires v.count < LIMIT && forall i | 0 <= i < |v.directory| :: Fits(v.directory[i])
    ensures var bytes := FileBytes(v);
            && |bytes| == 8 + 16 * |v.directory| + |v.payload|
            && bytes[..4] == [0x50, 0x42, 0x30, 0x31] && HoldsWord(bytes, 4, v.count)
            && bytes[8 + 16 * |v.directory|..] == v.payload
    ensures forall i | 0 <= i < |v.directory| ::
              var b := v.directory[i];
              && HoldsWord(FileBytes(v), 8 + 16 * i, b.first) && HoldsWord(FileBytes(v), 12 + 16 * i, b.last)
              && HoldsWord(FileBytes(v), 16 + 16 * i, b.start) && HoldsWord(FileBytes(v), 20 + 16 * i, b.end)
  {
    hide EncodeU32, HoldsWord, DirectoryBytes, EntryBytes;
    var n := |v.directory|;
    var bytes, directory, count := FileBytes(v), DirectoryBytes(v.directory), EncodeU32(v.count);
    assert bytes[4..4 + |count|] == count;
    WordHolds(v.count);
    HeldWithin(bytes, count, 4, 0, v.count);
    assert bytes[8..8 + 16 * n] == directory && bytes[8 + 16 * n..] == v.payload;
    forall i | 0 <= i < n
      ensures var b := v.directory[i];
              && HoldsWord(bytes, 8 + 16 * i, b.first) && HoldsWord(bytes, 12 + 16 * i, b.last)
              && HoldsWord(bytes, 16 + 16 * i, b.start) && HoldsWord(bytes, 20 + 16 * i, b.end)
    {
      var b := v.directory[i];
      var e := EntryBytes(b);
      EntryInDirectory(v.directory, i);
      assert bytes[8 + 16 * i..8 + 16 * i + |e|] == directory[16 * i..16 * i + 16];
      EntryLayout(b);
      HeldWithin(bytes, e, 8 + 16 * i, 0, b.first);
      HeldWithin(bytes, e, 8 + 16 * i, 4, b.last);
      HeldWithin(bytes, e, 8 + 16 * i, 8, b.start);
      HeldWithin(bytes, e, 8 + 16 * i, 12, b.end);
    }
  }

  /** Splits a file into its parts; the directory is checked afterwards. */
  function FileView(bytes: seq<Byte>, maxPositions: nat): Result<View, CodecError> {
    if |bytes| < 4 then Err(Truncated)
    else if bytes[..4] != MAGIC then Err(BadMagic)
    else if |bytes| < 8 then Err(Truncated)
    else
      var count := ValueU32(bytes[4..8]);
      var n := BlocksFor(count);
      if count > maxPositions then Err(LimitExceeded)
      else if |bytes| < 8 + 16 * n then Err(Truncated)
      else Ok(View(DirectoryOf(bytes[8..8 + 16 * n], n), bytes[8 + 16 * n..], count))
  }

  /** Writing a list and reading the file gives the list back. */
  lemma FileReadsBack(v: View, maxPositions: nat)
    requires v.count < LIMIT && v.count <= maxPositions && BlocksFor(v.count) == |v.directory|
    requires forall i | 0 <= i < |v.directory| :: Fits(v.directory[i])
    ensures FileView(FileBytes(v), maxPositions) == Ok(v)
  {
    hide EncodeU32, ValueU32, DirectoryBytes, DirectoryOf;
    var n := |v.directory|;
    var bytes := FileBytes(v);
    var head := MAGIC + EncodeU32(v.count);
    U32ReadsBack(v.count);
    DirectoryReadsBack(v.directory);
    assert bytes[..4] == MAGIC && bytes[4..8] == EncodeU32(v.count);
    assert bytes == head + (DirectoryBytes(v.directory) + v.payload);
    assert bytes[8..8 + 16 * n] == DirectoryBytes(v.directory);
    assert bytes[8 + 16 * n..] == v.payload;
  }

  /** A file that opens and validates is, byte for byte, the encoding of the positions it holds. */
  lemma FileReencodes(bytes: seq<Byte>, maxPositions: nat)
    requires FileView(bytes, maxPositions).Ok?
    requires var v := FileView(bytes, maxPositions).value; Opens(v) && AllDecode(v)
    ensures var v := FileView(bytes, maxPositions).value;
            && Steps(Held(v), 0, true) && ChunksOk(Chunks(Held(v))) && EncodeChunks(Chunks(Held(v))) == v
            && |Held(v)| == v.count < LIMIT && v.count <= maxPositions
            && (forall i | 0 <= i < |v.directory| :: Fits(v.directory[i])) && FileBytes(v) == bytes
  {
    hide EncodeU32, ValueU32, DirectoryBytes, DirectoryOf, Opens, AllDecode, EncodeChunks, ChunksOk, Steps;
    var v := FileView(bytes, maxPositions).value;
    var n := BlocksFor(v.count);
    ValidIsEncoded(v);
    U32IsCanonical(bytes[4..8]);
    DirectoryIsCanonical(bytes[8..8 + 16 * n], n);
    assert bytes == bytes[..4] + bytes[4..8] + bytes[8..8 + 16 * n] + bytes[8 + 16 * n..];
  }

  /** The positions of all blocks, one block after another. */
  method Collect(v: View) returns (ps: seq<nat>)
    requires Opens(v) && AllDecode(v)
    ensures ps == Held(v)
  {
    hide DecodeBlock, Opens;
    ps := [];
    ghost var cs := Decoded(v);
    assert cs[..0] == [];
    BlocksOpen(v);
    var i := 0;
    while i < |v.directory|
      invariant i <= |v.directory| == |cs| && ps == Flat(cs[..i])
    {
      EntryBasics(v, i);
      assert cs[..i + 1][..i] == cs[..i] && cs[i] == DecodeBlock(v, i).value;
      ps := ps + DecodeBlock(v, i).value;
      i := i + 1;
    }
    assert cs[..i] == cs;
  }

  lemma BlocksOpen(v: View)
    requires Opens(v)
    ensures BlocksFor(v.count) == |v.directory|
  {
  }

  /** Opens, validates, reads all positions and writes them again: the same bytes, or nothing. */
  method Reencode(bytes: seq<Byte>, maxPositions: nat) returns (r: Option<seq<Byte>>)
    ensures r.Some? ==> r.value == bytes
    ensures r.Some? <==> && FileView(bytes, maxPositions).Ok?
                         && Opens(FileView(bytes, maxPositions).value) && AllDecode(FileView(bytes, maxPositions).value)
  {
    hide Opens, AllDecode, Steps, ChunksOk, EncodeChunks, Chunks, FileBytes, DirectoryOf;
    var view := FileView(bytes, maxPositions);
    if view.Err? {
      return None;
    }
    var v := view.value;
    ViewShape(bytes, maxPositions);
    var opens := Open(v);
    if !opens {
      return None;
    }
    var valid := ValidateAll(v);
    if !valid {
      return None;
    }
    var ps := Collect(v);
    FileReencodes(bytes, maxPositions);
    StepsBounded(ps);
    var w := EncodeList(ps, maxPositions);
    return Some(FileBytes(w.value));
  }

  lemma StepsBounded(ps: seq<nat>)
    requires Steps(ps, 0, true)
    ensures forall i | 0 <= i < |ps| :: ps[i] < LIMIT
  {
    StepsIncrease(ps, 0, true);
  }

  lemma ViewShape(bytes: seq<Byte>, maxPositions: nat)
    requires FileView(bytes, maxPositions).Ok?
    ensures var v := FileView(bytes, maxPositions).value;
            && BlocksFor(v.count) == |v.directory| && forall i | 0 <= i < |v.directory| ::
                 v.directory[i].first < LIMIT && v.directory[i].last < LIMIT
  {
    hide DirectoryOf, ValueU32;
    var v := FileView(bytes, maxPositions).value;
    forall i | 0 <= i < |v.directory| ensures v.directory[i].first < LIMIT && v.directory[i].last < LIMIT {
      assert Fits(v.directory[i]);
    }
  }

  /**
   The two encodings of one list: seeking in the bytes of the blocks and scanning what the bytes
   of the flat stream parse as give the same answer, and the seek decodes at most one block.
   */
  method SeekBothWays(file: seq<Byte>, stream: seq<Byte>, ghost ps: seq<nat>, maxPositions: nat, target: nat)
    returns (blocks: Result<Found, CodecError>, flat: Result<Option<nat>, CodecError>)
    requires |ps| < LIMIT && |ps| <= maxPositions && Steps(ps, 0, true)
    requires stream == Encode(ps) && IsFile(file, ps)
    ensures blocks.Ok? && flat == Ok(blocks.value.position) && blocks.value.decoded <= BLOCK
    ensures FirstFrom(ps, target, blocks.value.position)
  {
    hide EncodeChunks, Chunks, ChunksOk, FirstFrom, Steps, FileBytes, FileView, Parse, Encode, DirectoryOf, Fits;
    FileOpens(file, ps, maxPositions);
    EncodedParses(ps, maxPositions);
    var view := FileView(file, maxPositions);
    blocks := SeekEncoded(view.value, ps, target);
    var positions := ParsePositions(stream, maxPositions);
    var found := LinearSeek(positions.value, target);
    FirstIsUnique(ps, target, blocks.value.position, found);
    flat := Ok(found);
  }

  /** The bytes are the block file of a list. */
  ghost predicate IsFile(file: seq<Byte>, ps: seq<nat>) {
    && |ps| < LIMIT && ChunksOk(Chunks(ps))
    && (var v := EncodeChunks(Chunks(ps));
        v.count == |ps| && (forall i | 0 <= i < |v.directory| :: Fits(v.directory[i])) && file == FileBytes(v))
  }

  lemma FileOpens(file: seq<Byte>, ps: seq<nat>, maxPositions: nat)
    requires IsFile(file, ps) && |ps| <= maxPositions
    ensures FileView(file, maxPositions) == Ok(EncodeChunks(Chunks(ps)))
  {
    hide EncodeChunks, Chunks, ChunksOk, FileBytes, FileView;
    EncodedFits(Chunks(ps));
    FileReadsBack(EncodeChunks(Chunks(ps)), maxPositions);
  }

  /** Every increasing list of admissible length has a block file. */
  method EncodeFile(ps: seq<nat>, maxPositions: nat) returns (r: Result<seq<Byte>, CodecError>)
    requires forall i | 0 <= i < |ps| :: ps[i] < LIMIT
    ensures r.Ok? <==> |ps| < LIMIT && |ps| <= maxPositions && Steps(ps, 0, true)
    ensures r.Ok? ==> IsFile(r.value, ps)
  {
    hide Steps, Chunks, ChunksOk, EncodeChunks, FileBytes;
    var view := EncodeList(ps, maxPositions);
    if view.Err? {
      return Err(view.error);
    }
    r := Ok(FileBytes(view.value));
  }
}
