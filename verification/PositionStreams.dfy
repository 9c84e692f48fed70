/** Counted delta streams of strictly increasing positions. */
module PositionStreams {
  import opened Outcomes
  import opened Varints

  // ----- deltas -----

  /** Positions that may follow `previous`; the first of a stream may equal it. */
  predicate Steps(ps: seq<nat>, previous: nat, free: bool) {
    ps == [] || (
      && (if free then previous <= ps[0] else previous < ps[0])
      && ps[0] < LIMIT && Steps(ps[1..], ps[0], false))
  }

  function Deltas(ps: seq<nat>, previous: nat, free: bool): seq<Byte>
    requires Steps(ps, previous, free)
  {
    if ps == [] then [] else EncodeVar(ps[0] - previous) + Deltas(ps[1..], ps[0], false)
  }

  /** Reads `n` positions from `o` on, and where the next byte is. */
  function ReadDeltas(bytes: seq<Byte>, o: nat, n: nat, previous: nat, free: bool): Result<(seq<nat>, nat), CodecError>
    decreases n
  {
    if n == 0 then Ok(([], o))
    else
      var d := ReadVar(bytes, o);
      if d.Err? then Err(d.error)
      else if !free && d.value.0 == 0 then Err(InvalidOrder)
      else if previous + d.value.0 >= LIMIT then Err(Overflow)
      else
        var p := previous + d.value.0;
        var rest := ReadDeltas(bytes, d.value.1, n - 1, p, false);
        if rest.Err? then rest else Ok(([p] + rest.value.0, rest.value.1))
  }

  lemma {:induction false} DeltasReadBack(before: seq<Byte>, ps: seq<nat>, previous: nat, free: bool, after: seq<Byte>)
    requires Steps(ps, previous, free)
    ensures ReadDeltas(before + Deltas(ps, previous, free) + after, |before|, |ps|, previous, free)
              == Ok((ps, |before| + |Deltas(ps, previous, free)|))
    decreases |ps|
  {
    hide ReadVar, EncodeVar;
    var bytes := before + Deltas(ps, previous, free) + after;
    if ps != [] {
      var d := EncodeVar(ps[0] - previous);
      var rest := Deltas(ps[1..], ps[0], false);
      ReadsBack(before, ps[0] - previous, rest + after);
      assert bytes == before + d + (rest + after);
      DeltasReadBack(before + d, ps[1..], ps[0], false, after);
      assert bytes == (before + d) + rest + after;
      assert ps == [ps[0]] + ps[1..];
    }
  }

  lemma {:induction false} DeltasAreCanonical(bytes: seq<Byte>, o: nat, n: nat, previous: nat, free: bool)
    requires o <= |bytes| && ReadDeltas(bytes, o, n, previous, free).Ok?
    ensures var (ps, end) := ReadDeltas(bytes, o, n, previous, free).value;
            && |ps| == n && Steps(ps, previous, free) && o <= end <= |bytes| &&
                 bytes[o..end] == Deltas(ps, previous, free)
    decreases n
  {
    hide ReadVar, EncodeVar;
    if n > 0 {
      ReadIsCanonical(bytes, o);
      var (d, next) := ReadVar(bytes, o).value;
      DeltasAreCanonical(bytes, next, n - 1, previous + d, false);
      var (ps, end) := ReadDeltas(bytes, o, n, previous, free).value;
      assert ps[1..] == ReadDeltas(bytes, next, n - 1, previous + d, false).value.0;
      assert bytes[o..end] == bytes[o..next] + bytes[next..end];
    }
  }

  /** The predicate says what it should: increasing, from `previous`, within 32 bits. */
  lemma {:induction false} StepsIncrease(ps: seq<nat>, previous: nat, free: bool)
    ensures Steps(ps, previous, free) ==
              ((forall i, j | 0 <= i < j < |ps| :: ps[i] < ps[j])
               && (forall i | 0 <= i < |ps| :: ps[i] < LIMIT && (if free then previous <= ps[i] else previous < ps[i])))
    decreases |ps|
  {
    if ps != [] {
      var rest := ps[1..];
      StepsIncrease(rest, ps[0], false);
      if Steps(ps, previous, free) {
        forall i, j | 0 <= i < j < |ps| ensures ps[i] < ps[j] {
          assert ps[j] == rest[j - 1];
          assert i > 0 ==> ps[i] == rest[i - 1];
        }
        forall i | 0 <= i < |ps| ensures ps[i] < LIMIT && (if free then previous <= ps[i] else previous < ps[i]) {
          assert i > 0 ==> ps[i] == rest[i - 1];
        }
      }
    }
  }

  // ----- counted streams -----

  function Encode(ps: seq<nat>): seq<Byte>
    requires |ps| < LIMIT && Steps(ps, 0, true)
  {
    EncodeU32(|ps|) + Deltas(ps, 0, true)
  }

  /** Everything a stored stream must satisfy, and the positions it holds. */
  function Parse(bytes: seq<Byte>, maxPositions: nat): Result<seq<nat>, CodecError> {
    if |bytes| < 4 then Err(Truncated)
    else
      var count := ValueU32(bytes[..4]);
      if count > maxPositions then Err(LimitExceeded)
      else if count > |bytes| - 4 then Err(Truncated)
      else
        var r := ReadDeltas(bytes, 4, count, 0, true);
        if r.Err? then Err(r.error) else if r.value.1 != |bytes| then Err(TrailingBytes) else Ok(r.value.0)
  }

  lemma {:induction false} DeltasAreLong(ps: seq<nat>, previous: nat, free: bool)
    requires Steps(ps, previous, free)
    ensures |ps| <= |Deltas(ps, previous, free)|
    decreases |ps|
  {
    if ps != [] {
      DeltasAreLong(ps[1..], ps[0], false);
    }
  }

  /** Encoding and parsing are inverse. */
  lemma EncodedParses(ps: seq<nat>, maxPositions: nat)
    requires |ps| < LIMIT && |ps| <= maxPositions && Steps(ps, 0, true)
    ensures Parse(Encode(ps), maxPositions) == Ok(ps)
  {
    hide Deltas, ReadDeltas, EncodeU32, ValueU32;
    var head := EncodeU32(|ps|);
    var tail := Deltas(ps, 0, true);
    U32ReadsBack(|ps|);
    assert Encode(ps)[..4] == head;
    DeltasAreLong(ps, 0, true);
    DeltasReadBack(head, ps, 0, true, []);
    assert head + tail + [] == Encode(ps);
  }

  lemma ParsedIsEncoded(bytes: seq<Byte>, maxPositions: nat)
    requires Parse(bytes, maxPositions).Ok?
    ensures var ps := Parse(bytes, maxPositions).value;
            |ps| < LIMIT && |ps| <= maxPositions && Steps(ps, 0, true) && bytes == Encode(ps)
  {
    hide Deltas, ReadDeltas, EncodeU32, ValueU32;
    var count := ValueU32(bytes[..4]);
    U32IsCanonical(bytes[..4]);
    DeltasAreCanonical(bytes, 4, count, 0, true);
    assert bytes == bytes[..4] + bytes[4..|bytes|];
  }

  // ----- the loops -----

  /** Compares neighbours: says whether the positions increase strictly. */
  method CheckOrder(ps: seq<nat>) returns (ok: bool)
    requires forall i | 0 <= i < |ps| :: ps[i] < LIMIT
    ensures ok <==> Steps(ps, 0, true)
  {
    StepsIncrease(ps, 0, true);
    var i := 1;
    while i < |ps|
      invariant 1 <= i && (ps != [] ==> i <= |ps|)
      invariant forall k, l | 0 <= k < l < i && l < |ps| :: ps[k] < ps[l]
    {
      if ps[i] <= ps[i - 1] {
        return false;
      }
      i := i + 1;
    }
    ok := true;
  }

  /** Checks order first, then writes; fails exactly on disorder or on too many positions. */
  method EncodePositions(ps: seq<nat>, maxPositions: nat) returns (r: Result<seq<Byte>, CodecError>)
    requires forall i | 0 <= i < |ps| :: ps[i] < LIMIT
    ensures |ps| >= LIMIT || |ps| > maxPositions <==> r == Err(LimitExceeded)
    ensures r.Ok? <==> |ps| < LIMIT && |ps| <= maxPositions && Steps(ps, 0, true)
    ensures r.Ok? ==> r.value == Encode(ps)
  {
    hide EncodeVar, Deltas;
    if |ps| >= LIMIT || |ps| > maxPositions {
      return Err(LimitExceeded);
    }
    var increasing := CheckOrder(ps);
    if !increasing {
      return Err(InvalidOrder);
    }
    var bytes := EncodeU32(|ps|);
    ghost var head := bytes;
    var previous := 0;
    var k := 0;
    AllLeft(ps);
    while k < |ps|
      invariant k <= |ps| && Steps(ps[k..], previous, k == 0)
      invariant bytes + Deltas(ps[k..], previous, k == 0) == head + Deltas(ps, 0, true)
    {
      NextDelta(ps[k..], previous, k == 0);
      var delta := WriteVar(ps[k] - previous);
      assert ps[k..][1..] == ps[k + 1..];
      assert bytes + (delta + Deltas(ps[k + 1..], ps[k], false)) == (bytes + delta) + Deltas(ps[k + 1..], ps[k], false);
      bytes := bytes + delta;
      previous := ps[k];
      k := k + 1;
    }
    NoDeltas(previous, k == 0);
    return Ok(bytes);
  }

  lemma AllLeft(ps: seq<nat>)
    ensures ps[0..] == ps
  {
  }

  lemma NextDelta(ps: seq<nat>, previous: nat, free: bool)
    requires ps != [] && Steps(ps, previous, free)
    ensures previous <= ps[0] && Steps(ps[1..], ps[0], false)
    ensures Deltas(ps, previous, free) == EncodeVar(ps[0] - previous) + Deltas(ps[1..], ps[0], false)
  {
  }

  lemma NoDeltas(previous: nat, free: bool)
    ensures Steps([], previous, free) && Deltas([], previous, free) == []
  {
  }

  /** Walks the stream once with a forward cursor. */
  method ParsePositions(bytes: seq<Byte>, maxPositions: nat) returns (r: Result<seq<nat>, CodecError>)
    ensures r == Parse(bytes, maxPositions)
  {
    hide ReadVar, ValueU32;
    if |bytes| < 4 {
      return Err(Truncated);
    }
    var count := ValueU32(bytes[..4]);
    if count > maxPositions {
      return Err(LimitExceeded);
    }
    if count > |bytes| - 4 {
      return Err(Truncated);
    }
    var reader := new Reader(bytes);
    reader.offset := 4;
    var ps: seq<nat> := [];
    var previous: nat := 0;
    var remaining: nat := count;
    ghost var all := ReadDeltas(bytes, 4, count, 0, true);
    assert all.Ok? ==> [] + all.value.0 == all.value.0;
    while remaining > 0
      invariant reader.Valid() && reader.bytes == bytes && remaining <= count
      invariant Resumes(ReadDeltas(bytes, 4, count, 0, true), ps,
                  ReadDeltas(bytes, reader.offset, remaining, previous, remaining == count))
    {
      var delta := reader.VarU32();
      if delta.Err? {
        return Err(delta.error);
      }
      if remaining != count && delta.value == 0 {
        return Err(InvalidOrder);
      }
      if previous + delta.value >= LIMIT {
        return Err(Overflow);
      }
      previous := previous + delta.value;
      ghost var rest := ReadDeltas(bytes, reader.offset, remaining - 1, previous, false);
      assert rest.Ok? ==> ps + ([previous] + rest.value.0) == (ps + [previous]) + rest.value.0;
      ps := ps + [previous];
      remaining := remaining - 1;
    }
    assert ps + [] == ps;
    if reader.offset != |bytes| {
      return Err(TrailingBytes);
    }
    return Ok(ps);
  }

  ghost predicate Resumes(whole: Result<(seq<nat>, nat), CodecError>, ps: seq<nat>,
      rest: Result<(seq<nat>, nat), CodecError>)
  {
    if rest.Err? then whole == rest else whole == Ok((ps + rest.value.0, rest.value.1))
  }
}
