/** Copying a stream to stdout and to a log that never exceeds its limit. */
module BoundedTee {
  import opened Wrappers
  import opened ContentBytes

  const MAXIMUM_LIMIT := 16 * 1024 * 1024
  const PREFIX_LIMIT := 1024 * 1024
  const CHUNK := 64 * 1024

  function Min(a: int, b: int): int {
    if a < b then a else b
  }

  /** A descriptor open for reading. A read returns any nonempty part of what is asked for, nothing only
      at the end, or fails; a reliable one does not fail. */
  class Source {
    const data: Bytes
    const reliable: bool
    var at: nat

    ghost predicate Valid()
      reads this
    {
      at <= |data|
    }

    constructor (content: Bytes, device: bool)
      ensures Valid() && data == content && reliable == device && at == 0
    {
      data, reliable, at := content, device, 0;
    }

    method Read(max: nat) returns (r: Result<Bytes>)
      requires Valid() && max > 0
      modifies this
      ensures Valid()
      ensures r.Raise? ==> at == old(at)
      ensures r.Ok? ==> |r.value| <= max && at == old(at) + |r.value| && r.value == data[old(at)..at]
      ensures r.Ok? && r.value == [] ==> at == |data|
      ensures reliable ==> r.Ok?
    {
      var n: int := *;
      var fails: bool := *;
      if fails && !reliable {
        return Raise;
      }
      if at == |data| {
        return Ok([]);
      }
      if n < 1 || n > max || n > |data| - at {
        n := 1;
      }
      r := Ok(data[at..at + n]);
      at := at + n;
    }
  }

  /** A descriptor open for writing. A write takes any part of what it is given, also nothing, or fails; a reliable
      one takes something. */
  class Sink {
    var written: Bytes
    const reliable: bool

    constructor (device: bool)
      ensures written == [] && reliable == device
    {
      written, reliable := [], device;
    }

    method Write(view: Bytes) returns (r: Result<nat>)
      modifies this
      ensures r.Raise? ==> written == old(written)
      ensures r.Ok? ==> r.value <= |view| && written == old(written) + view[..r.value]
      ensures reliable ==> r.Ok? && (view != [] ==> r.value > 0)
    {
      var n: int := *;
      var fails: bool := *;
      if fails && !reliable {
        return Raise;
      }
      if n < 0 || n > |view| || (n == 0 && reliable) {
        n := |view|;
      }
      written := written + view[..n];
      r := Ok(n);
    }

    /** os.fsync */
    method Sync() returns (ok: bool)
      ensures reliable ==> ok
    {
      ok := *;
      ok := ok || reliable;
    }
  }

  /** _write_all: on success everything is written, otherwise some beginning of it. */
  method WriteAll(sink: Sink, value: Bytes) returns (ok: bool)
    modifies sink
    ensures ok ==> sink.written == old(sink.written) + value
    ensures sink.reliable ==> ok
    ensures old(sink.written) <= sink.written <= old(sink.written) + value
  {
    var view := value;
    while view != []
      invariant |view| <= |value| && view == value[|value| - |view|..]
      invariant sink.written == old(sink.written) + value[..|value| - |view|]
      decreases |view|
    {
      var written := sink.Write(view);
      if written.Raise? || written.value == 0 {
        return false;
      }
      view := view[written.value..];
    }
    ok := true;
  }

  /** _read_prefix: the whole file, if it does not exceed the maximum. */
  method ReadPrefix(source: Source, maximum: nat) returns (r: Result<Bytes>)
    requires source.Valid() && source.at == 0
    modifies source
    ensures r.Ok? ==> r.value == source.data && |r.value| <= maximum
    ensures source.reliable && |source.data| <= maximum ==> r.Ok?
  {
    if |source.data| > maximum {
      return Raise;
    }
    var total: Bytes := [];
    while true
      invariant source.Valid() && |total| <= maximum && total == source.data[..source.at]
      decreases |source.data| - source.at
    {
      var chunk := source.Read(Min(CHUNK, maximum + 1 - |total|));
      if chunk.Raise? {
        return Raise;
      }
      if chunk.value == [] {
        break;
      }
      total := total + chunk.value;
      if |total| > maximum {
        return Raise;
      }
    }
    r := Ok(total);
  }

  /** Something began with a and now has part of b after it. */
  lemma PartWritten(a: Bytes, b: Bytes, now: Bytes)
    requires a <= now <= a + b
    ensures |now| - |a| <= |b| && now == a + b[..|now| - |a|]
  {
    assert now == (a + b)[..|now|];
  }

  /** The chunk that follows the first `total` bytes goes to the log first, then to stdout. */
  method WriteBoth(log: Sink, stdout: Sink, chunk: Bytes, ghost data: Bytes, ghost total: nat,
                   ghost log0: Bytes, ghost out0: Bytes)
    returns (ok: bool, ghost toLog: nat, ghost toOut: nat)
    requires log != stdout && total + |chunk| <= |data| && chunk == data[total..total + |chunk|]
    requires log.written == log0 + data[..total] && stdout.written == out0 + data[..total]
    modifies log, stdout
    ensures total <= toOut <= toLog <= total + |chunk| && (ok ==> toOut == total + |chunk|)
    ensures log.reliable && stdout.reliable ==> ok
    ensures log.written == log0 + data[..toLog]
    ensures stdout.written == out0 + data[..toOut]
  {
    ok := WriteAll(log, chunk);
    PartWritten(old(log.written), chunk, log.written);
    ghost var part := |log.written| - |old(log.written)|;
    Adjacent(data, log0, total, total + |chunk|, part);
    toLog, toOut := total + part, total;
    if !ok {
      return;
    }
    ok := WriteAll(stdout, chunk);
    PartWritten(old(stdout.written), chunk, stdout.written);
    part := |stdout.written| - |old(stdout.written)|;
    Adjacent(data, out0, total, total + |chunk|, part);
    toOut := total + part;
  }

  lemma Adjacent(data: Bytes, before: Bytes, total: nat, next: nat, part: nat)
    requires total <= next <= |data| && part <= next - total
    ensures before + data[..total] + data[total..next][..part] == before + data[..total + part]
  {
  }

  /** The copying loop: as much of the input as there is room for, whatever the reads and writes take. */
  method CopyInput(input: Source, log: Sink, stdout: Sink, room: nat)
    returns (r: Result<bool>, ghost toLog: nat, ghost toOut: nat)
    requires input.Valid() && input.at == 0 && log != stdout
    modifies input, log, stdout
    ensures toOut <= toLog <= Min(|input.data|, room)
    ensures log.written == old(log.written) + input.data[..toLog]
    ensures stdout.written == old(stdout.written) + input.data[..toOut]
    ensures r.Ok? ==> toOut == Min(|input.data|, room) && (r.value <==> |input.data| <= room)
    ensures r.Ok? ==> input.Valid() && input.at == Min(|input.data|, room + 1)
    ensures input.reliable && log.reliable && stdout.reliable ==> r.Ok?
  {
    var total := 0;
    toLog, toOut := 0, 0;
    while true
      invariant input.Valid() && 0 <= total <= room && input.at == total && toLog == toOut == total
      invariant log.written == old(log.written) + input.data[..total]
      invariant stdout.written == old(stdout.written) + input.data[..total]
      decreases |input.data| - input.at
    {
      var chunk := input.Read(Min(CHUNK, room + 1 - total));
      if chunk.Raise? {
        return Raise, toLog, toOut;
      }
      if chunk.value == [] {
        return Ok(true), toLog, toOut;
      }
      var admitted := chunk.value[..Min(|chunk.value|, room - total)];
      assert admitted == input.data[total..total + |admitted|];
      if admitted != [] {
        var ok;
        ok, toLog, toOut := WriteBoth(log, stdout, admitted, input.data, total, old(log.written), old(stdout.written));
        if !ok {
          return Raise, toLog, toOut;
        }
        total := total + |admitted|;
      }
      if |chunk.value| > |admitted| {
        return Ok(false), toLog, toOut;
      }
    }
  }

  /** capture, with the log just created, for every pattern of short reads and writes. The log is the
      prefix and as much of the input as fits, stdout got those same bytes, and the answer says whether
      all of it fitted; after a failure both hold a beginning of that, stdout no more than the log. */
  method Capture(limit: int, prefix: Option<Source>, input: Source, log: Sink, stdout: Sink)
    returns (r: Result<bool>, ghost p: Bytes, ghost toLog: nat, ghost toOut: nat)
    requires input.Valid() && input.at == 0 && log.written == [] && log != stdout
    requires prefix.Some? ==> prefix.value.Valid() && prefix.value.at == 0 && prefix.value != input
    modifies input, log, stdout, if prefix.Some? then {prefix.value} else {}
    ensures p == if prefix.Some? then prefix.value.data else []
    ensures log.written == [] || |log.written| <= limit
    ensures toOut <= toLog <= |input.data| && stdout.written == old(stdout.written) + input.data[..toOut]
    ensures if toLog == 0 then log.written <= p else log.written == p + input.data[..toLog]
    ensures r.Ok? ==>
      && 1 <= limit <= MAXIMUM_LIMIT && |p| <= Min(PREFIX_LIMIT, limit)
      && toOut == toLog == Min(|input.data|, limit - |p|) && log.written == p + input.data[..toLog]
      && input.at == Min(|input.data|, limit - |p| + 1)
      && (r.value <==> |input.data| <= limit - |p|)
    ensures 1 <= limit <= MAXIMUM_LIMIT && |p| <= Min(PREFIX_LIMIT, limit) && (prefix.Some? ==> prefix.value.reliable) ==>
              input.reliable && log.reliable && stdout.reliable ==> r.Ok?
  {
    p, toLog, toOut := if prefix.Some? then prefix.value.data else [], 0, 0;
    if limit < 1 || limit > MAXIMUM_LIMIT {
      return Raise, p, toLog, toOut;
    }
    var bytes: Bytes := [];
    if prefix.Some? {
      var read := ReadPrefix(prefix.value, Min(PREFIX_LIMIT, limit));
      if read.Raise? {
        return Raise, p, toLog, toOut;
      }
      bytes := read.value;
    }
    var ok := WriteAll(log, bytes);
    if !ok {
      return Raise, p, toLog, toOut;
    }
    var copied;
    copied, toLog, toOut := CopyInput(input, log, stdout, limit - |bytes|);
    var synced := log.Sync();
    r := if synced then copied else Raise;
  }
}
