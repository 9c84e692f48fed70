/** Position lists cut into independently decodable blocks with a searchable directory. */
module PositionBlocks {
  import opened Outcomes
  import opened Varints
  import opened PositionStreams

  const BLOCK: nat := 128

  datatype Block = Block(first: nat, last: nat, start: nat, end: nat)

  /** An opened list: directory entries, delta payload and number of positions. */
  datatype View = View(directory: seq<Block>, payload: seq<Byte>, count: nat)

  function BlocksFor(count: nat): nat {
    (count + BLOCK - 1) / BLOCK
  }

  function BlockLength(count: nat, i: nat): (n: nat)
    requires i < BlocksFor(count)
    ensures 1 <= n <= BLOCK
  {
    if count - i * BLOCK < BLOCK then count - i * BLOCK else BLOCK
  }

  // ----- chunks -----

  predicate ChunkOk(c: seq<nat>) {
    0 < |c| <= BLOCK && c[0] < LIMIT && Steps(c[1..], c[0], false)
  }

  function LastOf(c: seq<nat>): nat
    requires c != []
  {
    c[|c| - 1]
  }

  /** Full blocks but for the last, each above the one before. */
  ghost predicate ChunksOk(cs: seq<seq<nat>>) {
    && (forall i | 0 <= i < |cs| :: ChunkOk(cs[i]))
    && (forall i | 0 <= i < |cs| - 1 :: |cs[i]| == BLOCK)
    && (forall i, j | 0 <= i < j < |cs| :: LastOf(cs[i]) < cs[j][0])
  }

  function Flat(cs: seq<seq<nat>>): seq<nat> {
    if cs == [] then [] else Flat(cs[..|cs| - 1]) + cs[|cs| - 1]
  }

  function Chunks(ps: seq<nat>): seq<seq<nat>>
    decreases |ps|
  {
    if ps == [] then []
    else
      var m := (|ps| - 1) / BLOCK * BLOCK;
      Chunks(ps[..m]) + [ps[m..]]
  }

  lemma {:induction false} FlatChunks(ps: seq<nat>)
    ensures Flat(Chunks(ps)) == ps
    decreases |ps|
  {
    if ps != [] {
      var m := (|ps| - 1) / BLOCK * BLOCK;
      FlatChunks(ps[..m]);
      var cs := Chunks(ps);
      assert cs[..|cs| - 1] == Chunks(ps[..m]);
      assert ps == ps[..m] + ps[m..];
    }
  }

  lemma InitOk(cs: seq<seq<nat>>)
    requires ChunksOk(cs) && cs != []
    ensures ChunksOk(cs[..|cs| - 1]) && ChunkOk(cs[|cs| - 1])
  {
  }

  /** How long the chunks are together. */
  lemma {:induction false} FlatLength(cs: seq<seq<nat>>)
    requires ChunksOk(cs)
    ensures cs == [] ==> |Flat(cs)| == 0
    ensures cs != [] ==> |Flat(cs)| == (|cs| - 1) * BLOCK + |cs[|cs| - 1]|
    ensures BlocksFor(|Flat(cs)|) == |cs|
    decreases |cs|
  {
    if cs != [] {
      InitOk(cs);
      var init := cs[..|cs| - 1];
      FlatLength(init);
      assert init != [] ==> |init[|init| - 1]| == BLOCK;
    }
  }

  lemma ChunkLength(cs: seq<seq<nat>>, i: nat)
    requires ChunksOk(cs) && i < |cs|
    ensures BlocksFor(|Flat(cs)|) == |cs| && BlockLength(|Flat(cs)|, i) == |cs[i]|
  {
    FlatLength(cs);
  }

  lemma {:induction false} FlatMembers(cs: seq<seq<nat>>, p: nat)
    ensures p in Flat(cs) <==> exists i :: 0 <= i < |cs| && p in cs[i]
    decreases |cs|
  {
    if cs != [] {
      var init := cs[..|cs| - 1];
      FlatMembers(init, p);
      if p in Flat(init) {
        var i :| 0 <= i < |init| && p in init[i];
        assert p in cs[i];
      }
      if i :| 0 <= i < |cs| && p in cs[i] {
        assert i < |init| ==> p in init[i];
      }
    }
  }

  lemma AppendChunk(cs: seq<seq<nat>>, c: seq<nat>)
    requires ChunksOk(cs) && ChunkOk(c)
    requires forall i | 0 <= i < |cs| :: |cs[i]| == BLOCK && LastOf(cs[i]) < c[0]
    ensures ChunksOk(cs + [c])
  {
    hide ChunkOk;
  }

  /** When the total is a multiple of the block size, every chunk is full. */
  lemma AllFull(cs: seq<seq<nat>>, k: nat)
    requires ChunksOk(cs) && |Flat(cs)| == k * BLOCK
    ensures forall i | 0 <= i < |cs| :: |cs[i]| == BLOCK
  {
    FlatLength(cs);
    if cs != [] {
      assert ChunkOk(cs[|cs| - 1]);
    }
  }

  /** Splitting an increasing list gives good chunks. */
  lemma {:induction false} ChunksAreOk(ps: seq<nat>)
    requires Steps(ps, 0, true)
    ensures ChunksOk(Chunks(ps))
    decreases |ps|
  {
    hide ChunkOk, Steps, ChunksOk, Flat;
    if ps == [] {
      NoChunks();
    } else {
      StepsIncrease(ps, 0, true);
      var k := (|ps| - 1) / BLOCK;
      var m := k * BLOCK;
      var init, last := ps[..m], ps[m..];
      StepsIncrease(init, 0, true);
      ChunksAreOk(init);
      LastChunkOk(ps, m);
      var cs := Chunks(init);
      FlatChunks(init);
      AllFull(cs, k);
      ChunksNonempty(cs);
      forall i | 0 <= i < |cs| ensures LastOf(cs[i]) < last[0] {
        FlatMembers(cs, LastOf(cs[i]));
        assert LastOf(cs[i]) in cs[i];
        assert LastOf(cs[i]) in init;
      }
      AppendChunk(cs, last);
    }
  }

  lemma NoChunks()
    ensures ChunksOk([])
  {
  }

  lemma ChunksNonempty(cs: seq<seq<nat>>)
    requires ChunksOk(cs)
    ensures forall i | 0 <= i < |cs| :: cs[i] != []
  {
    forall i | 0 <= i < |cs| ensures cs[i] != [] {
      assert ChunkOk(cs[i]);
    }
  }

  lemma LastChunkOk(ps: seq<nat>, m: nat)
    requires Steps(ps, 0, true) && m < |ps| <= m + BLOCK
    ensures ChunkOk(ps[m..])
  {
    StepsIncrease(ps, 0, true);
    var c := ps[m..];
    StepsIncrease(c[1..], c[0], false);
    forall i | 0 <= i < |c[1..]| ensures c[0] < c[1..][i] {
      assert c[1..][i] == ps[m + 1 + i];
    }
  }

  /** Cutting the joined chunks gives the chunks back. */
  lemma {:induction false} ChunksFlat(cs: seq<seq<nat>>)
    requires ChunksOk(cs)
    ensures Chunks(Flat(cs)) == cs
    decreases |cs|
  {
    hide ChunksOk, Flat, Chunks;
    if cs == [] {
      NothingCut();
    } else {
      InitOk(cs);
      var init, c := cs[..|cs| - 1], cs[|cs| - 1];
      ChunksFlat(init);
      LastStarts(cs);
      LastCut(Flat(cs), |init|, c);
      assert cs == init + [c];
    }
  }

  lemma NothingCut()
    ensures Chunks(Flat([])) == []
  {
  }

  /** The last chunk begins after as many full blocks as there are chunks before it. */
  lemma LastStarts(cs: seq<seq<nat>>)
    requires ChunksOk(cs) && cs != []
    ensures var init, c := cs[..|cs| - 1], cs[|cs| - 1];
            && Flat(cs) == Flat(init) + c && |Flat(init)| == |init| * BLOCK && 0 < |c| <= BLOCK
  {
    hide Steps;
    InitOk(cs);
    var init := cs[..|cs| - 1];
    FlatLength(init);
    assert init != [] ==> |init[|init| - 1]| == BLOCK;
  }

  lemma LastCut(ps: seq<nat>, n: nat, c: seq<nat>)
    requires 0 < |c| <= BLOCK && |ps| == n * BLOCK + |c| && ps[n * BLOCK..] == c
    ensures Chunks(ps) == Chunks(ps[..n * BLOCK]) + [c]
  {
    assert (|ps| - 1) / BLOCK == n;
  }

  lemma FlatAt(cs: seq<seq<nat>>, i: nat)
    requires ChunksOk(cs) && cs != [] && i < |Flat(cs)|
    ensures Flat(cs)[i] in Flat(cs) && Flat(cs)[i] <= LastOf(cs[|cs| - 1])
  {
    hide Flat, ChunkOk;
    ChunksNonempty(cs);
    FlatMembers(cs, Flat(cs)[i]);
    var k :| 0 <= k < |cs| && Flat(cs)[i] in cs[k];
    ChunkBounds(cs[k], Flat(cs)[i]);
    if k < |cs| - 1 {
      assert LastOf(cs[k]) < cs[|cs| - 1][0];
      ChunkBounds(cs[|cs| - 1], cs[|cs| - 1][0]);
    }
  }

  lemma ChunkBounds(c: seq<nat>, p: nat)
    requires ChunkOk(c) && p in c
    ensures c[0] <= p <= LastOf(c) < LIMIT
  {
    StepsIncrease(c[1..], c[0], false);
    var k :| 0 <= k < |c| && c[k] == p;
    assert k > 0 ==> c[1..][k - 1] == p;
    assert |c| > 1 ==> c[1..][|c| - 2] == LastOf(c);
  }

  lemma ChunkRises(c: seq<nat>, i: nat, j: nat)
    requires ChunkOk(c) && i < j < |c|
    ensures c[i] < c[j]
  {
    StepsIncrease(c[1..], c[0], false);
    assert c[j] == c[1..][j - 1] && (i > 0 ==> c[i] == c[1..][i - 1]);
  }

  /** Joined chunks are one increasing list. */
  lemma {:induction false} FlatSteps(cs: seq<seq<nat>>)
    requires ChunksOk(cs)
    ensures Steps(Flat(cs), 0, true)
    decreases |cs|
  {
    hide ChunkOk, Steps;
    var ps := Flat(cs);
    StepsIncrease(ps, 0, true);
    if cs != [] {
      InitOk(cs);
      var init, c := cs[..|cs| - 1], cs[|cs| - 1];
      FlatSteps(init);
      StepsIncrease(Flat(init), 0, true);
      var n := |Flat(init)|;
      ChunksNonempty(cs);
      forall i | 0 <= i < |ps| ensures ps[i] < LIMIT {
        if i >= n {
          assert ps[i] in c;
          ChunkBounds(c, ps[i]);
        }
      }
      forall i, j | 0 <= i < j < |ps| ensures ps[i] < ps[j] {
        if i >= n {
          ChunkRises(c, i - n, j - n);
        } else if j >= n {
          FlatAt(init, i);
          assert LastOf(init[|init| - 1]) < c[0];
          assert ps[j] in c;
          ChunkBounds(c, ps[j]);
        }
      }
    }
  }

  // ----- encoding -----

  function Body(c: seq<nat>): seq<Byte>
    requires ChunkOk(c)
  {
    Deltas(c[1..], c[0], false)
  }

  /** A view with one more block at its end. */
  ghost function Extended(v: View, c: seq<nat>): View
    requires ChunkOk(c)
  {
    View(v.directory + [Block(c[0], LastOf(c), |v.payload|, |v.payload| + |Body(c)|)], v.payload + Body(c),
        v.count + |c|)
  }

  ghost function EncodeChunks(cs: seq<seq<nat>>): View
    requires ChunksOk(cs)
  {
    if cs == [] then View([], [], 0) else Extended(EncodeChunks(cs[..|cs| - 1]), cs[|cs| - 1])
  }

  /** Where each chunk's entry points, and what is there. */
  lemma {:induction false} EncodedChunk(cs: seq<seq<nat>>, i: nat)
    requires ChunksOk(cs) && i < |cs|
    ensures var v := EncodeChunks(cs);
            && |v.directory| == |cs| && v.count == |Flat(cs)|
            && var b := v.directory[i];
            && b.first == cs[i][0] && b.last == LastOf(cs[i])
            && b.start <= b.end <= |v.payload| && v.payload[b.start..b.end] == Body(cs[i])
            && (if i == 0 then b.start == 0 else b.start == v.directory[i - 1].end)
            && (i == |cs| - 1 ==> b.end == |v.payload|)
    decreases |cs|
  {
    hide Deltas, Body, ChunkOk, ChunksOk, Flat;
    InitOk(cs);
    ChunksNonempty(cs);
    var init := cs[..|cs| - 1];
    var v, w := EncodeChunks(cs), EncodeChunks(init);
    EncodedCount(cs);
    EncodedCount(init);
    if i == |cs| - 1 {
      if init != [] {
        EncodedChunk(init, |init| - 1);
      }
      assert v.payload[|w.payload|..] == Body(cs[i]);
    } else {
      EncodedChunk(init, i);
      var b := w.directory[i];
      assert v.directory[i] == b;
      assert v.payload[b.start..b.end] == w.payload[b.start..b.end];
    }
  }

  lemma {:induction false} EncodedCount(cs: seq<seq<nat>>)
    requires ChunksOk(cs)
    ensures var v := EncodeChunks(cs); |v.directory| == |cs| && v.count == |Flat(cs)| && (cs == [] ==> v.payload == [])
    decreases |cs|
  {
    hide Deltas, Body;
    if cs != [] {
      InitOk(cs);
      EncodedCount(cs[..|cs| - 1]);
    }
  }

  // ----- decoding one block -----

  /** The positions of a block, when its payload is exactly theirs. */
  function DecodeBlock(v: View, i: nat): Result<seq<nat>, CodecError>
    requires i < |v.directory| && BlocksFor(v.count) == |v.directory|
    requires v.directory[i].start <= v.directory[i].end <= |v.payload|
  {
    var b := v.directory[i];
    var part := v.payload[b.start..b.end];
    var r := ReadDeltas(part, 0, BlockLength(v.count, i) - 1, b.first, false);
    if r.Err? then Err(r.error)
    else if r.value.1 != |part| then Err(TrailingBytes)
    else if LastOf([b.first] + r.value.0) != b.last then Err(InvalidValue)
    else Ok([b.first] + r.value.0)
  }

  lemma EncodedDecodes(cs: seq<seq<nat>>, i: nat)
    requires ChunksOk(cs) && i < |cs|
    ensures var v := EncodeChunks(cs);
            && |v.directory| == |cs| == BlocksFor(v.count)
            && v.directory[i].start <= v.directory[i].end <= |v.payload|
            && DecodeBlock(v, i) == Ok(cs[i])
  {
    hide Deltas, ReadDeltas, EncodeChunks;
    EncodedChunk(cs, i);
    ChunkLength(cs, i);
    var c := cs[i];
    assert ChunkOk(c);
    DeltasReadBack([], c[1..], c[0], false, []);
    assert [] + Body(c) + [] == Body(c);
    assert [c[0]] + c[1..] == c;
  }

  /** What decodes is a good chunk, and its payload is the canonical one. */
  lemma DecodedIsChunk(v: View, i: nat)
    requires i < |v.directory| && BlocksFor(v.count) == |v.directory|
    requires v.directory[i].start <= v.directory[i].end <= |v.payload| && v.directory[i].first < LIMIT
    requires DecodeBlock(v, i).Ok?
    ensures var c := DecodeBlock(v, i).value;
            var b := v.directory[i];
            && |c| == BlockLength(v.count, i) && ChunkOk(c) && b.first == c[0] && b.last == LastOf(c)
            && v.payload[b.start..b.end] == Body(c)
  {
    hide Deltas, ReadDeltas;
    var b := v.directory[i];
    var part := v.payload[b.start..b.end];
    DeltasAreCanonical(part, 0, BlockLength(v.count, i) - 1, b.first, false);
    var c := DecodeBlock(v, i).value;
    assert c[1..] == ReadDeltas(part, 0, BlockLength(v.count, i) - 1, b.first, false).value.0;
    assert part[0..|part|] == part;
  }

  // ----- opening -----

  /** One directory entry against its neighbours: extents, bounds and order. */
  predicate EntryOk(v: View, i: nat)
    requires i < |v.directory| && BlocksFor(v.count) == |v.directory|
  {
    var b := v.directory[i];
    var n := BlockLength(v.count, i);
    && b.first < LIMIT && b.last < LIMIT
    && b.start == (if i == 0 then 0 else v.directory[i - 1].end)
    && b.start <= b.end <= |v.payload|
    && n - 1 <= b.end - b.start <= (n - 1) * 5
    && b.first <= b.last && (n == 1 ==> b.first == b.last) && b.last - b.first >= n - 1
    && (i > 0 ==> v.directory[i - 1].last < b.first)
  }

  ghost predicate Opens(v: View) {
    && BlocksFor(v.count) == |v.directory|
    && (forall i | 0 <= i < |v.directory| :: EntryOk(v, i))
    && (if v.directory == [] then 0 else v.directory[|v.directory| - 1].end) == |v.payload|
  }

  /** Checks the directory in one pass, carrying the last extent and position. */
  method Open(v: View) returns (ok: bool)
    requires BlocksFor(v.count) == |v.directory|
    requires forall i | 0 <= i < |v.directory| :: v.directory[i].first < LIMIT && v.directory[i].last < LIMIT
    ensures ok <==> Opens(v)
  {
    var end := 0;
    var previous: Option<nat> := None;
    var i := 0;
    while i < |v.directory|
      invariant i <= |v.directory| && forall k | 0 <= k < i :: EntryOk(v, k)
      invariant end == if i == 0 then 0 else v.directory[i - 1].end
      invariant previous == if i == 0 then None else Some(v.directory[i - 1].last)
    {
      var b := v.directory[i];
      var n := BlockLength(v.count, i);
      if b.end < b.start || b.start != end || b.end > |v.payload| || b.end - b.start < n - 1 ||
          b.end - b.start > (n - 1) * 5
         || b.first > b.last || (n == 1 && b.first != b.last) || b.last - b.first < n - 1 {
        assert !EntryOk(v, i);
        return false;
      }
      if previous.Some? && previous.value >= b.first {
        assert !EntryOk(v, i);
        return false;
      }
      end := b.end;
      previous := Some(b.last);
      i := i + 1;
    }
    return end == |v.payload|;
  }

  lemma {:induction false} BodyBounds(ps: seq<nat>, previous: nat)
    requires Steps(ps, previous, false)
    ensures |ps| <= |Deltas(ps, previous, false)| <= 5 * |ps|
    ensures ps != [] ==> ps[|ps| - 1] >= previous + |ps|
    decreases |ps|
  {
    if ps != [] {
      BodyBounds(ps[1..], ps[0]);
      EncodedLength(ps[0] - previous);
    }
  }

  /** An encoded list opens. */
  lemma EncodedOpens(cs: seq<seq<nat>>)
    requires ChunksOk(cs)
    ensures Opens(EncodeChunks(cs))
  {
    hide EncodeChunks, Deltas;
    var v := EncodeChunks(cs);
    EncodedCount(cs);
    FlatLength(cs);
    forall i | 0 <= i < |v.directory| ensures EntryOk(v, i) {
      EncodedEntry(cs, i);
    }
    if cs != [] {
      EncodedChunk(cs, |cs| - 1);
    }
  }

  lemma EncodedEntry(cs: seq<seq<nat>>, i: nat)
    requires ChunksOk(cs) && i < |cs|
    ensures var v := EncodeChunks(cs); |v.directory| == |cs| == BlocksFor(v.count) && EntryOk(v, i)
  {
    hide EncodeChunks, Deltas;
    EncodedChunk(cs, i);
    ChunkLength(cs, i);
    assert ChunkOk(cs[i]);
    BodyBounds(cs[i][1..], cs[i][0]);
    LastInRange(cs[i]);
    if i > 0 {
      EncodedChunk(cs, i - 1);
      assert LastOf(cs[i - 1]) < cs[i][0];
    }
  }

  lemma LastInRange(c: seq<nat>)
    requires ChunkOk(c)
    ensures LastOf(c) < LIMIT && c[0] <= LastOf(c) && (|c| > 1 ==> LastOf(c) == c[1..][|c| - 2])
  {
    StepsIncrease(c[1..], c[0], false);
  }

  // ----- a valid file is the encoding of what it holds -----

  ghost predicate AllDecode(v: View)
    requires Opens(v)
  {
    forall i | 0 <= i < |v.directory| :: EntryOk(v, i) && DecodeBlock(v, i).Ok?
  }

  ghost function Decoded(v: View): (cs: seq<seq<nat>>)
    requires Opens(v) && AllDecode(v)
    ensures |cs| == |v.directory|
  {
    seq(|v.directory|, i requires 0 <= i < |v.directory| => assert EntryOk(v, i); DecodeBlock(v, i).value)
  }

  lemma {:induction false} LastsRise(v: View, i: nat, j: nat)
    requires Opens(v) && i < j < |v.directory|
    ensures v.directory[i].last < v.directory[j].first
    decreases j
  {
    assert EntryOk(v, j);
    if i < j - 1 {
      LastsRise(v, i, j - 1);
      assert EntryOk(v, j - 1);
    }
  }

  lemma DecodedOk(v: View)
    requires Opens(v) && AllDecode(v)
    ensures ChunksOk(Decoded(v))
  {
    hide DecodeBlock, EntryOk;
    var cs := Decoded(v);
    forall i | 0 <= i < |cs| ensures ChunkOk(cs[i]) && |cs[i]| == BlockLength(v.count, i) {
      EntryBasics(v, i);
      DecodedIsChunk(v, i);
    }
    forall i, j | 0 <= i < j < |cs| ensures LastOf(cs[i]) < cs[j][0] {
      EntryBasics(v, i);
      EntryBasics(v, j);
      DecodedIsChunk(v, i);
      DecodedIsChunk(v, j);
      LastsRise(v, i, j);
    }
  }

  lemma EntryBasics(v: View, i: nat)
    requires Opens(v) && i < |v.directory|
    ensures v.directory[i].start <= v.directory[i].end <= |v.payload| && v.directory[i].first < LIMIT
  {
    assert EntryOk(v, i);
  }

  /** The first `n` blocks re-encode to the first `n` entries and their payload. */
  lemma {:induction false} PrefixReencodes(v: View, cs: seq<seq<nat>>, n: nat)
    requires Opens(v) && AllDecode(v) && cs == Decoded(v) && ChunksOk(cs) && n <= |cs|
    ensures ChunksOk(cs[..n])
    ensures var w := EncodeChunks(cs[..n]);
            && w.directory == v.directory[..n]
            && |w.payload| <= |v.payload| && w.payload == v.payload[..|w.payload|]
            && |w.payload| == (if n == 0 then 0 else v.directory[n - 1].end)
    decreases n
  {
    hide DecodeBlock, Body, EntryOk, EncodeChunks;
    if n == 0 {
      EncodedCount(cs[..0]);
    } else {
      PrefixReencodes(v, cs, n - 1);
      assert cs[..n][..n - 1] == cs[..n - 1];
      EntryPlace(v, n - 1);
      DecodedIsChunk(v, n - 1);
      EncodeOneMore(cs[..n]);
      var b := v.directory[n - 1];
      assert v.payload[..b.end] == v.payload[..b.start] + v.payload[b.start..b.end];
      assert v.directory[..n] == v.directory[..n - 1] + [b];
    }
  }

  lemma EntryPlace(v: View, i: nat)
    requires Opens(v) && i < |v.directory|
    ensures v.directory[i].start <= v.directory[i].end <= |v.payload| && v.directory[i].first < LIMIT
    ensures v.directory[i].start == if i == 0 then 0 else v.directory[i - 1].end
  {
    assert EntryOk(v, i);
  }

  lemma EncodeOneMore(cs: seq<seq<nat>>)
    requires ChunksOk(cs) && cs != []
    ensures ChunksOk(cs[..|cs| - 1]) && ChunkOk(cs[|cs| - 1])
    ensures EncodeChunks(cs) == Extended(EncodeChunks(cs[..|cs| - 1]), cs[|cs| - 1])
  {
    hide Extended, ChunkOk;
    InitOk(cs);
  }

  /** The positions a valid view holds. */
  ghost function Held(v: View): seq<nat>
    requires Opens(v) && AllDecode(v)
  {
    Flat(Decoded(v))
  }

  /** A view that passes every check is the encoding of the positions it holds. */
  lemma ValidIsEncoded(v: View)
    requires Opens(v) && AllDecode(v)
    ensures Steps(Held(v), 0, true) && ChunksOk(Chunks(Held(v))) && EncodeChunks(Chunks(Held(v))) == v
    ensures |Held(v)| == v.count
  {
    BlocksReencode(v);
    FlatSteps(Decoded(v));
    ChunksFlat(Decoded(v));
    CountMatches(v, Decoded(v));
  }

  lemma BlocksReencode(v: View)
    requires Opens(v) && AllDecode(v)
    ensures ChunksOk(Decoded(v)) && EncodeChunks(Decoded(v)) == v
  {
    var cs := Decoded(v);
    DecodedOk(v);
    PrefixReencodes(v, cs, |cs|);
    assert cs[..|cs|] == cs;
    EncodedCount(cs);
    FlatLength(cs);
    CountMatches(v, cs);
    assert v.directory[..|cs|] == v.directory;
    assert v.payload[..|v.payload|] == v.payload;
  }

  lemma CountMatches(v: View, cs: seq<seq<nat>>)
    requires Opens(v) && AllDecode(v) && cs == Decoded(v) && ChunksOk(cs)
    ensures |Flat(cs)| == v.count
  {
    FlatLength(cs);
    if cs != [] {
      var i := |cs| - 1;
      assert EntryOk(v, i);
      DecodedIsChunk(v, i);
    }
  }
}
