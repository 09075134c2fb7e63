/**
 The TLS-obfuscated connection: the client's incremental record parser, which compacts the
 payload inside the caller's buffer, and the server's record writer. Records are those of
 section 6.2.1 of RFC 5246.
 */
module ObfsTls {
  import opened Bytes
  import opened Wrappers

  const MAX_DATA := 16384
  const HELLO_SIZE := 91

  datatype Phase = Type | Version0 | Version1 | Length0 | Length1 | Data

  /** step counts the records seen: ServerHello, ChangeCipherSpec, first data, later data. */
  datatype State = State(step: nat, phase: Phase, length: nat)

  datatype Failure = BadType | BadMajorVersion | BadMinorVersion | BadLength | Panic

  const START := State(0, Type, 0)

  function RecordType(step: nat): byte
  {
    if step == 0 then 0x16 else if step == 1 then 0x14 else if step == 2 then 0x16 else 0x17
  }

  function VersionMinor(step: nat): byte { if step == 0 then 0x01 else 0x03 }

  /** What one byte does: a new state and at most one payload byte, or a failure. */
  datatype Fed = Fed(st: State, out: seq<byte>) | Failed(failure: Failure)

  /** The record automaton, one byte at a time. */
  function Feed(st: State, ch: byte): Fed
  {
    match st.phase
    case Type =>
      if st.step > 3 then Failed(Panic)
      else if ch != RecordType(st.step) then Failed(BadType)
      else Fed(st.(phase := Version0), [])
    case Version0 => if ch != 0x03 then Failed(BadMajorVersion) else Fed(st.(phase := Version1), [])
    case Version1 =>
      if st.step > 3 then Failed(Panic)
      else if ch != VersionMinor(st.step) then Failed(BadMinorVersion)
      else Fed(st.(phase := Length0), [])
    case Length0 => Fed(State(st.step, Length1, ch * 256), [])
    case Length1 =>
      var n := if st.step == 0 then HELLO_SIZE else if st.step == 1 then 1 else st.length + ch;
      if st.step > 1 && n > MAX_DATA then Failed(BadLength)
      else if n > 0 then Fed(State(st.step, Data, n), [])
      else Fed(State(st.step + 1, Type, 0), [])
    case Data =>
      var out := if st.step >= 2 then [ch] else [];
      if st.length > 1 then Fed(st.(length := st.length - 1), out)
      else Fed(State(if st.step < 3 then st.step + 1 else st.step, Type, 0), out)
  }

  /** A run over a byte sequence: final state, payload, and bytes read since the last payload byte. */
  datatype Progress = Progress(st: State, out: seq<byte>, trail: nat) | Stopped(failure: Failure)

  function Then(p: Progress, ch: byte): Progress
  {
    match p
    case Stopped(_) => p
    case Progress(st, out, trail) =>
      match Feed(st, ch)
      case Failed(f) => Stopped(f)
      case Fed(st', o) => Progress(st', out + o, if o == [] then trail + 1 else 0)
  }

  function FeedAll(p: Progress, bs: seq<byte>): Progress
    decreases |bs|
  {
    if bs == [] then p else FeedAll(Then(p, bs[0]), bs[1..])
  }

  function Parsed(st: State, bs: seq<byte>): Progress { FeedAll(Progress(st, [], 0), bs) }

  lemma {:induction false} FeedAllConcat(p: Progress, a: seq<byte>, b: seq<byte>)
    ensures FeedAll(p, a + b) == FeedAll(FeedAll(p, a), b)
    decreases |a|
  {
    if a == [] {
      assert a + b == b;
    } else {
      FeedAllConcat(Then(p, a[0]), a[1..], b);
      assert (a + b)[1..] == a[1..] + b;
    }
  }

  /** State left after k body bytes. */
  function AfterBody(st: State, k: nat): State
    requires st.phase == Data && k <= st.length
  {
    if k < st.length then st.(length := st.length - k)
    else State(if st.step < 3 then st.step + 1 else st.step, Type, 0)
  }

  /** The progress made by a block of body bytes: it is payload once data records have begun. */
  function BodyRead(p: Progress, bs: seq<byte>): Progress
    requires p.Progress? && p.st.phase == Data && |bs| <= p.st.length
  {
    if p.st.step >= 2 then Progress(AfterBody(p.st, |bs|), p.out + bs, 0)
    else Progress(AfterBody(p.st, |bs|), p.out, p.trail + |bs|)
  }

  lemma {:induction false} FeedBody(p: Progress, bs: seq<byte>)
    requires p.Progress? && p.st.phase == Data && 0 < |bs| <= p.st.length
    ensures FeedAll(p, bs) == BodyRead(p, bs)
    decreases |bs|
  {
    var p' := Then(p, bs[0]);
    if |bs| == 1 {
      assert bs == [bs[0]];
    } else {
      FeedBody(p', bs[1..]);
      assert [bs[0]] + bs[1..] == bs;
      assert p.out + [bs[0]] + bs[1..] == p.out + bs;
    }
  }

  lemma {:induction false} StoppedStays(p: Progress, bs: seq<byte>)
    requires p.Stopped?
    ensures FeedAll(p, bs) == p
    decreases |bs|
  {
    if bs != [] {
      StoppedStays(p, bs[1..]);
    }
  }

  /** The payload count that the parser reports for a chunk. */
  function Reported(out: seq<byte>, trail: nat): nat
  {
    if out == [] then 0 else if trail > 0 then trail else |out|
  }

  /** Byte k of the chunk is a body byte from step 2 on. */
  ghost predicate PayloadAt(st: State, chunk: seq<byte>, k: nat)
  {
    k < |chunk| && var p := Parsed(st, chunk[..k]); p.Progress? && p.st.phase == Data && p.st.step >= 2
  }

  ghost predicate LastPayloadAt(st: State, chunk: seq<byte>, k: nat)
  {
    PayloadAt(st, chunk, k) && forall j :: k < j < |chunk| ==> !PayloadAt(st, chunk, j)
  }

  lemma ParsedNext(st: State, chunk: seq<byte>, n: nat)
    requires n < |chunk|
    ensures Parsed(st, chunk[..n + 1]) == Then(Parsed(st, chunk[..n]), chunk[n])
  {
    assert chunk[..n + 1] == chunk[..n] + [chunk[n]];
    FeedAllConcat(Progress(st, [], 0), chunk[..n], [chunk[n]]);
  }

  /** What trails are the bytes after the last payload byte. */
  lemma {:induction false} TrailCounts(st: State, chunk: seq<byte>, n: nat)
    requires n <= |chunk| && Parsed(st, chunk[..n]).Progress?
    ensures var p := Parsed(st, chunk[..n]);
            && (p.out == [] <==> forall k :: 0 <= k < n ==> !PayloadAt(st, chunk, k))
            && p.trail <= n && (p.out != [] ==> p.trail < n && PayloadAt(st, chunk, n - 1 - p.trail))
            && forall j :: n - p.trail <= j < n ==> !PayloadAt(st, chunk, j)
  {
    if n == 0 {
      assert chunk[..n] == [];
    } else {
      ParsedNext(st, chunk, n - 1);
      TrailCounts(st, chunk, n - 1);
      var p := Parsed(st, chunk[..n - 1]);
      assert PayloadAt(st, chunk, n - 1) <==> p.st.phase == Data && p.st.step >= 2;
    }
  }

  /**
   The report is right exactly when the chunk holds no payload, or its last byte is payload, or
   by coincidence as many bytes follow the last payload byte as there is payload.
   */
  lemma ReportedExactly(st: State, chunk: seq<byte>)
    requires Parsed(st, chunk).Progress?
    ensures var p := Parsed(st, chunk);
            Reported(p.out, p.trail) == |p.out| <==>
              || (forall k :: 0 <= k < |chunk| ==> !PayloadAt(st, chunk, k))
              || exists k: nat :: LastPayloadAt(st, chunk, k) && (k + 1 == |chunk| || |chunk| - (k + 1) == |p.out|)
  {
    assert chunk[..|chunk|] == chunk;
    TrailCounts(st, chunk, |chunk|);
    var p := Parsed(st, chunk);
    if p.out != [] {
      var last := |chunk| - 1 - p.trail;
      assert LastPayloadAt(st, chunk, last);
      forall k: nat | LastPayloadAt(st, chunk, k)
        ensures k == last
      {
      }
    }
  }

  /** A byte of the next record's header is enough: one byte is reported, whatever was written before. */
  lemma HeaderByteMisreported(a: seq<byte>, b: seq<byte>)
    requires 1 < |a| <= MAX_DATA && b != []
    ensures AppRecords(a) + [0x17] <= Stream([], [a, b])
    ensures var p := Parsed(State(3, Type, 0), AppRecords(a) + [0x17]);
            p.Progress? && p.out == a && Reported(p.out, p.trail) == 1
  {
    TwoWrites(a, b);
    WriteAndByte(a);
  }

  lemma WriteAndByte(a: seq<byte>)
    ensures Parsed(State(3, Type, 0), AppRecords(a) + [0x17]) == Progress(State(3, Version0, 0), a, 1)
  {
    var start := Progress(State(3, Type, 0), [], 0);
    FeedAppRecords(start, a);
    FeedAllConcat(start, AppRecords(a), [0x17]);
    assert FeedAll(start.(out := a), [0x17]) == Then(start.(out := a), 0x17);
  }

  lemma TwoWrites(a: seq<byte>, b: seq<byte>)
    requires b != [] && a != []
    ensures AppRecords(a) + [0x17] <= Stream([], [a, b])
  {
    assert AppRecords(b)[0] == 0x17;
    assert [a, b][1..] == [b] && [b][1..] == [];
    assert Stream([], [b]) == AppRecords(b) + [];
  }

  /** Byte k ends the header of an empty record where payload is expected, and another byte follows. */
  ghost predicate EmptyRecordAt(st: State, chunk: seq<byte>, k: nat)
  {
    k + 1 < |chunk| && chunk[k] == 0 && var p := Parsed(st, chunk[..k]); p.Progress? && p.st == State(3, Length1, 0)
  }

  lemma {:induction false} StepsUp(st: State, chunk: seq<byte>, n: nat)
    requires st.step <= 3 && n <= |chunk|
    ensures var p := Parsed(st, chunk[..n]);
            && (p.Progress? && p.st.step > 3 ==>
                  p.st == State(4, Type, 0) && (0 < n < |chunk| ==> EmptyRecordAt(st, chunk, n - 1)))
            && (p == Stopped(Panic) ==> exists k :: EmptyRecordAt(st, chunk, k))
  {
    if n == 0 {
      assert chunk[..n] == [];
    } else {
      ParsedNext(st, chunk, n - 1);
      StepsUp(st, chunk, n - 1);
    }
  }

  /**
   The parser panics exactly on a byte after an empty record where payload is expected, in the same chunk or
   the next.
   */
  lemma PanicsExactly(st: State, chunk: seq<byte>)
    requires st.phase != Type ==> st.step <= 3
    ensures Parsed(st, chunk) == Stopped(Panic) <==>
              (st.step > 3 && chunk != []) || exists k :: EmptyRecordAt(st, chunk, k)
  {
    assert chunk[..|chunk|] == chunk;
    if st.step <= 3 {
      StepsUp(st, chunk, |chunk|);
    } else if chunk != [] {
      assert Then(Progress(st, [], 0), chunk[0]) == Stopped(Panic);
      StoppedStays(Stopped(Panic), chunk[1..]);
    }
    if k: nat :| EmptyRecordAt(st, chunk, k) && st.step <= 3 {
      ParsedNext(st, chunk, k);
      ParsedNext(st, chunk, k + 1);
      assert chunk == chunk[..k + 2] + chunk[k + 2..];
      FeedAllConcat(Progress(st, [], 0), chunk[..k + 2], chunk[k + 2..]);
      StoppedStays(Stopped(Panic), chunk[k + 2..]);
    }
  }

  /** Byte pos is a body byte, and with it a multiple of 65536 bytes is left: a count that 16 bits cut to 0. */
  ghost predicate HangsAt(st: State, chunk: seq<byte>, pos: nat)
  {
    pos < |chunk| && (|chunk| - pos) % 0x1_0000 == 0
    && var p := Parsed(st, chunk[..pos]); p.Progress? && p.st.phase == Data
  }

  /** The run over the first pos bytes, none of which makes the loop hang. */
  ghost predicate Reached(st: State, chunk: seq<byte>, pos: nat, p: Progress)
  {
    pos <= |chunk| && p == Parsed(st, chunk[..pos]) && forall q :: 0 <= q < pos ==> !HangsAt(st, chunk, q)
  }

  lemma HeaderReaches(st: State, chunk: seq<byte>, pos: nat, p: Progress)
    requires Reached(st, chunk, pos, p) && pos < |chunk| && p.Progress? && p.st.phase != Data
    ensures Reached(st, chunk, pos + 1, Then(p, chunk[pos]))
  {
    ParsedNext(st, chunk, pos);
  }

  lemma BodyParsed(st: State, chunk: seq<byte>, pos: nat, p: Progress, k: nat)
    requires pos + k <= |chunk| && p == Parsed(st, chunk[..pos])
    requires p.Progress? && p.st.phase == Data && 0 < k <= p.st.length
    ensures Parsed(st, chunk[..pos + k]) == BodyRead(p, chunk[pos..pos + k])
  {
    FeedBody(p, chunk[pos..pos + k]);
    assert chunk[..pos + k] == chunk[..pos] + chunk[pos..pos + k];
    FeedAllConcat(Progress(st, [], 0), chunk[..pos], chunk[pos..pos + k]);
  }

  lemma BodyReaches(st: State, chunk: seq<byte>, pos: nat, p: Progress, left: nat)
    requires Reached(st, chunk, pos, p) && p.Progress? && p.st.phase == Data
    requires 0 < left <= p.st.length && pos + left <= |chunk| && left <= (|chunk| - pos) % 0x1_0000
    ensures Reached(st, chunk, pos + left, BodyRead(p, chunk[pos..pos + left]))
  {
    BodyParsed(st, chunk, pos, p, left);
    forall q | 0 <= q < pos + left
      ensures !HangsAt(st, chunk, q)
    {
      if q >= pos {
        StaysBelow(|chunk| - pos, q - pos);
      }
    }
  }

  lemma StaysBelow(n: nat, k: nat)
    requires k < n % 0x1_0000
    ensures (n - k) % 0x1_0000 == n % 0x1_0000 - k
  {
  }

  /** After a failure nothing hangs any more. */
  lemma FailureReaches(st: State, chunk: seq<byte>, pos: nat, p: Progress)
    requires Reached(st, chunk, pos, p) && p.Stopped?
    ensures Parsed(st, chunk) == p && forall q :: 0 <= q < |chunk| ==> !HangsAt(st, chunk, q)
  {
    assert chunk == chunk[..pos] + chunk[pos..];
    FeedAllConcat(Progress(st, [], 0), chunk[..pos], chunk[pos..]);
    StoppedStays(p, chunk[pos..]);
    forall q | pos <= q < |chunk|
      ensures !HangsAt(st, chunk, q)
    {
      assert chunk[..q] == chunk[..pos] + chunk[pos..q];
      FeedAllConcat(Progress(st, [], 0), chunk[..pos], chunk[pos..q]);
      StoppedStays(p, chunk[pos..q]);
    }
  }

  /** The buffer after pos bytes of the chunk: the payload in front, then skipped bytes, then the unread rest. */
  ghost predicate Buffered(b: seq<byte>, chunk: seq<byte>, p: Progress, pos: nat, i: nat, last: nat, len: nat)
    requires p.Progress?
  {
    && last == |p.out| && i == last + p.trail && i <= len <= |b| == |chunk|
    && pos <= |chunk| && len - i == |chunk| - pos
    && b[..last] == p.out && b[i..len] == chunk[pos..]
  }

  /** The same, after a run of which no byte has made the loop hang. */
  ghost predicate Mid(b: seq<byte>, chunk: seq<byte>, p: Progress, pos: nat, i: nat, last: nat, len: nat, st: State)
  {
    p.Progress? && Buffered(b, chunk, p, pos, i, last, len) && Reached(st, chunk, pos, p)
  }

  lemma SkipsByte(b: seq<byte>, chunk: seq<byte>, p: Progress, pos: nat, i: nat, last: nat, len: nat)
    requires p.Progress? && Buffered(b, chunk, p, pos, i, last, len) && i < len
    ensures b[i] == chunk[pos]
    ensures var p' := Then(p, b[i]);
            p'.Progress? && p'.out == p.out && p'.trail == p.trail + 1 ==>
              Buffered(b, chunk, p', pos + 1, i + 1, last, len)
  {
    assert b[i..len][0] == chunk[pos..][0];
    assert chunk[pos..][1..] == chunk[pos + 1..];
    assert b[i + 1..len] == b[i..len][1..];
  }

  lemma SkipsBody(b: seq<byte>, chunk: seq<byte>, p0: Progress, p: Progress, pos: nat, i: nat, last: nat, len: nat,
                  left: nat)
    requires p0.Progress? && p.Progress? && Buffered(b, chunk, p0, pos, i, last, len) && i + left <= len
    requires p.out == p0.out && p.trail == p0.trail + left
    ensures Buffered(b, chunk, p, pos + left, i + left, last, len)
  {
    assert b[i + left..len] == b[i..len][left..];
    assert chunk[pos..][left..] == chunk[pos + left..];
  }

  lemma KeepsPayload(b0: seq<byte>, b: seq<byte>, chunk: seq<byte>, p0: Progress, p: Progress, pos: nat, i: nat,
                     last: nat,
                     len: nat, left: nat)
    requires p0.Progress? && p.Progress? && Buffered(b0, chunk, p0, pos, i, last, len) && i + left <= len
    requires |b| == |b0| && b[..last] == b0[..last] && b[last..last + (len - i)] == b0[i..len]
    requires p.out == p0.out + chunk[pos..pos + left] && p.trail == 0
    ensures Buffered(b, chunk, p, pos + left, last + left, last + left, len - (i - last))
  {
    var moved := b[last..last + (len - i)];
    assert moved == chunk[pos..];
    assert moved[..left] == chunk[pos..pos + left] && moved[left..] == chunk[pos + left..];
    assert b[..last + left] == b[..last] + moved[..left];
    assert b[last + left..len - (i - last)] == moved[left..];
  }

  datatype Outcome = NoError | Error(failure: Failure) | Hangs

  class Parser {
    var step: nat
    var phase: Phase
    var length: nat

    constructor ()
      ensures Now() == START && Valid()
    {
      step, phase, length := 0, Type, 0;
    }

    function Now(): State
      reads this
    {
      State(step, phase, length)
    }

    ghost predicate Valid()
      reads this
    {
      (phase == Data ==> 0 < length) && (phase != Type ==> step <= 3)
    }

    /**
     obfsTLSParser.Parse: strips record headers from the chunk in place. The first |out| bytes
     of the buffer are the payload; the count returned is right only as ReportedExactly says.
     Outcome Hangs stands for the loop that makes no progress any more.
     */
    method Parse(b: array<byte>) returns (n: nat, outcome: Outcome)
      requires Valid()
      modifies this, b
      ensures outcome == Hangs <==> exists pos :: HangsAt(old(Now()), old(b[..]), pos)
      ensures outcome == Hangs ==> b.Length >= 0x1_0000
      ensures outcome != Hangs ==>
                match Parsed(old(Now()), old(b[..]))
                case Stopped(f) => outcome == Error(f) && n == 0
                case Progress(st, out, trail) =>
                  && outcome == NoError && Now() == st && Valid()
                  && |out| + trail <= b.Length && b[..|out|] == out && n == Reported(out, trail)
    {
      ghost var chunk, st := b[..], Now();
      ghost var p, pos: nat := Progress(st, [], 0), 0;
      var i: nat, last: nat, len: nat := 0, 0, b.Length;
      while i < len
        invariant Valid() && Mid(b[..], chunk, p, pos, i, last, len, st) && p.st == Now()
        decreases len - i
      {
        if phase != Data {
          var fed;
          fed, p := HeaderRound(b, chunk, p, pos, i, last, len, st);
          if fed.Failed? {
            return 0, Error(fed.failure);
          }
          pos, i := pos + 1, i + 1;
        } else {
          var left := (len - i) % 0x1_0000;
          if left > length {
            left := length;
          }
          if left == 0 {
            assert HangsAt(st, chunk, pos);
            return 0, Hangs;
          }
          p, pos, i, last, len := BodyRound(b, chunk, p, pos, i, last, len, left, st);
        }
      }
      assert chunk[..pos] == chunk;
      outcome := NoError;
      n := if last == 0 then 0 else if last < len then len - last else len;
    }

    /** One round of the loop outside a body. */
    method HeaderRound(b: array<byte>, ghost chunk: seq<byte>, ghost p0: Progress, ghost pos: nat, i: nat,
                       ghost last: nat,
                       len: nat, ghost st: State)
      returns (fed: Fed, ghost p: Progress)
      requires Valid() && phase != Data && i < len
      requires Mid(b[..], chunk, p0, pos, i, last, len, st) && p0.st == Now()
      modifies this
      ensures fed.Fed? ==> Valid() && Mid(b[..], chunk, p, pos + 1, i + 1, last, len, st) && p.st == Now()
      ensures fed.Failed? ==>
                Parsed(st, chunk) == Stopped(fed.failure) && forall q :: 0 <= q < |chunk| ==> !HangsAt(st, chunk, q)
    {
      SkipsByte(b[..], chunk, p0, pos, i, last, len);
      HeaderReaches(st, chunk, pos, p0);
      fed := Header(b[i]);
      p := Then(p0, chunk[pos]);
      if fed.Failed? {
        FailureReaches(st, chunk, pos + 1, p);
      }
    }

    /** One round of the loop inside a body. */
    method BodyRound(b: array<byte>, ghost chunk: seq<byte>, ghost p0: Progress, ghost pos0: nat, i0: nat, last0: nat,
                     len0: nat,
                     left: nat, ghost st: State)
      returns (ghost p: Progress, ghost pos: nat, i: nat, last: nat, len: nat)
      requires Valid() && phase == Data && p0.Progress? && p0.st == Now()
      requires 0 < left <= length && i0 + left <= len0 && left <= (len0 - i0) % 0x1_0000
      requires Mid(b[..], chunk, p0, pos0, i0, last0, len0, st)
      modifies this, b
      ensures Valid() && Mid(b[..], chunk, p, pos, i, last, len, st) && p.st == Now()
      ensures len - i == len0 - i0 - left
    {
      BodyReaches(st, chunk, pos0, p0, left);
      p, pos, i, last, len := Body(b, chunk, p0, pos0, i0, last0, len0, left);
    }

    /** A block of body bytes: kept at the front of the buffer once data records have begun. */
    method Body(b: array<byte>, ghost chunk: seq<byte>, ghost p0: Progress, ghost pos0: nat, i0: nat, last0: nat,
                len0: nat,
                left: nat)
      returns (ghost p: Progress, ghost pos: nat, i: nat, last: nat, len: nat)
      requires Valid() && phase == Data && p0.Progress? && p0.st == Now()
      requires Buffered(b[..], chunk, p0, pos0, i0, last0, len0)
      requires 0 < left <= length && i0 + left <= len0
      modifies this, b
      ensures p == BodyRead(p0, chunk[pos0..pos0 + left]) && pos == pos0 + left
      ensures Valid() && p.Progress? && p.st == Now()
      ensures Buffered(b[..], chunk, p, pos, i, last, len) && len - i == len0 - i0 - left
    {
      i, last, len := i0, last0, len0;
      p, pos := BodyRead(p0, chunk[pos0..pos0 + left]), pos0 + left;
      ghost var before := b[..];
      if step >= 2 {
        var skip := i - last;
        Shift(b, last, i, len);
        KeepsPayload(before, b[..], chunk, p0, p, pos0, i, last, len, left);
        len := len - skip;
        last := last + left;
        i := last;
      } else {
        SkipsBody(before, chunk, p0, p, pos0, i, last, len, left);
        i := i + left;
      }
      length := length - left;
      if length == 0 {
        if step < 3 {
          step := step + 1;
        }
        phase := Type;
      }
    }

    /** One header byte. */
    method Header(ch: byte) returns (fed: Fed)
      requires Valid() && phase != Data
      modifies this
      ensures fed == Feed(old(Now()), ch)
      ensures fed.Fed? ==> Now() == fed.st && fed.out == [] && Valid()
    {
      if phase == Type {
        if step > 3 {
          return Failed(Panic);
        }
        if RecordType(step) != ch {
          return Failed(BadType);
        }
        phase := Version0;
      } else if phase == Version0 {
        if ch != 0x03 {
          return Failed(BadMajorVersion);
        }
        phase := Version1;
      } else if phase == Version1 {
        if ch != VersionMinor(step) {
          return Failed(BadMinorVersion);
        }
        phase := Length0;
      } else if phase == Length0 {
        length := ch * 256;
        phase := Length1;
      } else {
        length := length + ch;
        if step == 0 {
          length := HELLO_SIZE;
        } else if step == 1 {
          length := 1;
        } else if length > MAX_DATA {
          return Failed(BadLength);
        }
        if length > 0 {
          phase := Data;
        } else {
          phase := Type;
          step := step + 1;
        }
      }
      fed := Fed(Now(), []);
    }
  }

  /** Copies b[from..end] down to b[to..]. */
  method Shift(b: array<byte>, to: nat, from: nat, end: nat)
    requires to <= from <= end <= b.Length
    modifies b
    ensures b[..to] == old(b[..to])
    ensures b[to..to + (end - from)] == old(b[from..end])
  {
    for k := to to to + (end - from)
      invariant b[..to] == old(b[..to])
      invariant forall j :: to <= j < k ==> b[j] == old(b[j + (from - to)])
      invariant forall j :: k <= j < b.Length ==> b[j] == old(b[j])
    {
      b[k] := b[k + (from - to)];
    }
    ghost var moved := b[to..to + (end - from)];
    assert forall j :: 0 <= j < |moved| ==> moved[j] == b[to + j];
  }

  function Record(typ: byte, minor: byte, body: seq<byte>): seq<byte>
    requires |body| < 0x1_0000
  {
    [typ, 0x03, minor, |body| / 256, |body| % 256] + body
  }

  /** What the server's handshake leaves in its write buffer: ServerHello and ChangeCipherSpec. */
  function Handshake(hello: seq<byte>): seq<byte>
    requires |hello| == HELLO_SIZE
  {
    Record(0x16, 0x01, hello) + Record(0x14, 0x03, [1])
  }

  function Min(a: nat, b: nat): nat { if a < b then a else b }

  /** Application data, split into records. */
  function AppRecords(b: seq<byte>): seq<byte>
    decreases |b|
  {
    if b == [] then []
    else if |b| <= MAX_DATA then Record(0x17, 0x03, b)
    else Record(0x17, 0x03, b[..MAX_DATA]) + AppRecords(b[MAX_DATA..])
  }

  /** What one write sends: with a cached handshake, that and a single record. */
  function Sends(wbuf: seq<byte>, b: seq<byte>): seq<byte>
  {
    if b == [] then []
    else if wbuf != [] then wbuf + Record(0x16, 0x03, b[..Min(|b|, MAX_DATA)])
    else AppRecords(b)
  }

  class ServerConn {
    var wbuf: seq<byte>
    var sent: seq<byte>

    /** A connection whose handshake is done. */
    constructor (hello: seq<byte>)
      requires |hello| == HELLO_SIZE
      ensures wbuf == Handshake(hello) && sent == []
    {
      wbuf, sent := Handshake(hello), [];
    }

    /** obfsTLSConn.Write after the handshake. It reports all of data as written. */
    method Write(data: seq<byte>) returns (n: nat)
      modifies this
      ensures sent == old(sent) + Sends(old(wbuf), data)
      ensures wbuf == if data == [] then old(wbuf) else []
      ensures n == |data|
    {
      n := |data|;
      var b := data;
      while |b| > 0
        invariant wbuf == old(wbuf)
        invariant wbuf != [] ==> b == data && sent == old(sent)
        invariant wbuf == [] ==> sent + AppRecords(b) == old(sent) + AppRecords(data)
        decreases |b|
      {
        var piece := b;
        if |b| > MAX_DATA {
          piece := b[..MAX_DATA];
          b := b[MAX_DATA..];
        } else {
          b := [];
        }
        if |wbuf| > 0 {
          sent := sent + (wbuf + Record(0x16, 0x03, piece));
          wbuf := [];
          return;
        }
        Associates(sent, Record(0x17, 0x03, piece), AppRecords(b));
        sent := sent + Record(0x17, 0x03, piece);
      }
    }
  }

  /** All that a fresh server connection sends for a sequence of writes. */
  function Stream(wbuf: seq<byte>, writes: seq<seq<byte>>): seq<byte>
    decreases |writes|
  {
    if writes == [] then []
    else Sends(wbuf, writes[0]) + Stream(if writes[0] == [] then wbuf else [], writes[1..])
  }

  function Concat(ws: seq<seq<byte>>): seq<byte> { if ws == [] then [] else ws[0] + Concat(ws[1..]) }

  /** What arrives of the writes: the first write that is not empty is cut to one record. */
  function Arrives(writes: seq<seq<byte>>): seq<byte>
  {
    if writes == [] then []
    else if writes[0] == [] then Arrives(writes[1..])
    else writes[0][..Min(|writes[0]|, MAX_DATA)] + Concat(writes[1..])
  }

  /** A record of the expected type is read to its end, and its body is the payload from step 2 on. */
  lemma FeedRecord(p: Progress, minor: byte, body: seq<byte>)
    requires p.Progress? && p.st.phase == Type && p.st.step <= 3 && minor == VersionMinor(p.st.step)
    requires 0 < |body|
             && |body| == if p.st.step == 0 then HELLO_SIZE else if p.st.step == 1 then 1 else Min(|body|, MAX_DATA)
    ensures FeedAll(p, Record(RecordType(p.st.step), minor, body))
            == Progress(State(if p.st.step < 3 then p.st.step + 1 else 3, Type, 0),
                        if p.st.step >= 2 then p.out + body else p.out,
                        if p.st.step >= 2 then 0 else p.trail + 5 + |body|)
  {
    var r := Record(RecordType(p.st.step), minor, body);
    var header := r[..5];
    assert r == header + body;
    FeedAllConcat(p, header, body);
    HeaderRead(p, header, |body|);
    FeedBody(FeedAll(p, header), body);
  }

  lemma HeaderRead(p: Progress, h: seq<byte>, n: nat)
    requires p.Progress? && p.st.phase == Type && p.st.step <= 3 && 0 < n < 0x1_0000
    requires h == [RecordType(p.st.step), 0x03, VersionMinor(p.st.step), n / 256, n % 256]
    requires n == if p.st.step == 0 then HELLO_SIZE else if p.st.step == 1 then 1 else Min(n, MAX_DATA)
    ensures FeedAll(p, h) == Progress(State(p.st.step, Data, n), p.out, p.trail + 5)
  {
    var p1 := Then(p, h[0]);
    var p2 := Then(p1, h[1]);
    var p3 := Then(p2, h[2]);
    var p4 := Then(p3, h[3]);
    var p5 := Then(p4, h[4]);
    assert p5 == Progress(State(p.st.step, Data, n), p.out, p.trail + 5);
    assert h[1..][1..] == h[2..] && h[2..][1..] == h[3..] && h[3..][1..] == h[4..] && h[4..][1..] == [];
    assert FeedAll(p, h) == FeedAll(p1, h[1..]) == FeedAll(p2, h[2..]);
    assert FeedAll(p2, h[2..]) == FeedAll(p3, h[3..]) == FeedAll(p4, h[4..]) == FeedAll(p5, []);
  }

  /** The state of a client that has read whole records up to the step. */
  ghost predicate Between(p: Progress, step: nat)
  {
    p.Progress? && p.st == State(step, Type, 0) && (step == 3 ==> p.trail == 0)
  }

  lemma {:induction false} FeedAppRecords(p: Progress, b: seq<byte>)
    requires Between(p, 3)
    ensures FeedAll(p, AppRecords(b)) == p.(out := p.out + b)
    decreases |b|
  {
    if b == [] {
      assert p.out + b == p.out;
    } else if |b| <= MAX_DATA {
      FeedRecord(p, 0x03, b);
    } else {
      var piece := b[..MAX_DATA];
      FeedAllConcat(p, Record(0x17, 0x03, piece), AppRecords(b[MAX_DATA..]));
      FeedRecord(p, 0x03, piece);
      FeedAppRecords(FeedAll(p, Record(0x17, 0x03, piece)), b[MAX_DATA..]);
      Associates(p.out, piece, b[MAX_DATA..]);
      assert piece + b[MAX_DATA..] == b;
    }
  }

  lemma {:induction false} LaterWritesArrive(p: Progress, writes: seq<seq<byte>>)
    requires Between(p, 3)
    ensures FeedAll(p, Stream([], writes)) == p.(out := p.out + Concat(writes))
    decreases |writes|
  {
    if writes == [] {
      assert p.out + Concat(writes) == p.out;
    } else {
      FeedAllConcat(p, AppRecords(writes[0]), Stream([], writes[1..]));
      FeedAppRecords(p, writes[0]);
      LaterWritesArrive(p.(out := p.out + writes[0]), writes[1..]);
      Associates(p.out, writes[0], Concat(writes[1..]));
    }
  }

  /** Whatever the server writes, the client's parser never fails on it, and its payload is what arrives. */
  lemma {:induction false} WritesArrive(hello: seq<byte>, writes: seq<seq<byte>>)
    requires |hello| == HELLO_SIZE
    ensures var p := Parsed(START, Stream(Handshake(hello), writes));
            p.Progress? && p.out == Arrives(writes) && p.trail == 0
  {
    if writes != [] {
      if writes[0] == [] {
        WritesArrive(hello, writes[1..]);
        assert Sends(Handshake(hello), writes[0]) + Stream(Handshake(hello), writes[1..])
            == Stream(Handshake(hello), writes[1..]);
      } else {
        FirstWriteArrives(hello, writes[0]);
        var first := Sends(Handshake(hello), writes[0]);
        var p := Progress(START, [], 0);
        FeedAllConcat(p, first, Stream([], writes[1..]));
        LaterWritesArrive(FeedAll(p, first), writes[1..]);
      }
    }
  }

  lemma FirstWriteArrives(hello: seq<byte>, data: seq<byte>)
    requires |hello| == HELLO_SIZE && data != []
    ensures Parsed(START, Sends(Handshake(hello), data))
            == Progress(State(3, Type, 0), data[..Min(|data|, MAX_DATA)], 0)
  {
    var p0 := Progress(START, [], 0);
    var r1, r2 := Record(0x16, 0x01, hello), Record(0x14, 0x03, [1]);
    var body := data[..Min(|data|, MAX_DATA)];
    var r3 := Record(0x16, 0x03, body);
    assert Sends(Handshake(hello), data) == r1 + r2 + r3;
    FeedAllConcat(p0, r1 + r2, r3);
    FeedAllConcat(p0, r1, r2);
    FeedRecord(p0, 0x01, hello);
    FeedRecord(FeedAll(p0, r1), 0x03, [1]);
    FeedRecord(FeedAll(p0, r1 + r2), 0x03, body);
    assert [] + body == body;
  }

  /** The first write that is not empty fits into one record. */
  ghost predicate FirstFits(writes: seq<seq<byte>>)
  {
    writes != [] ==> if writes[0] == [] then FirstFits(writes[1..]) else |writes[0]| <= MAX_DATA
  }

  /** Nothing is lost exactly when the first write fits into one record. */
  lemma {:induction false} NothingLost(writes: seq<seq<byte>>)
    ensures Arrives(writes) == Concat(writes) <==> FirstFits(writes)
  {
    if writes != [] {
      if writes[0] == [] {
        NothingLost(writes[1..]);
        assert Concat(writes) == Concat(writes[1..]);
      } else if |writes[0]| <= MAX_DATA {
        assert writes[0][..|writes[0]|] == writes[0];
      } else {
        assert |Arrives(writes)| == MAX_DATA + |Concat(writes[1..])| < |Concat(writes)|;
      }
    }
  }

  /** The payload of a stream is the same however it is cut into chunks. */
  function ChunkPayloads(st: State, chunks: seq<seq<byte>>): seq<byte>
    decreases |chunks|
  {
    if chunks == [] then []
    else
      match Parsed(st, chunks[0])
      case Stopped(_) => []
      case Progress(st', out, _) => out + ChunkPayloads(st', chunks[1..])
  }

  /** The payload already read does not influence what follows. */
  lemma ThenOut(p: Progress, r: Progress, ch: byte)
    requires p.Progress? && r.Progress? && p.st == r.st
    ensures var q, s := Then(p, ch), Then(r, ch);
            if s.Stopped? then q == s
            else q.Progress? && q.st == s.st && s.out == r.out + s.out[|r.out|..] && |r.out| <= |s.out|
                 && q.out == p.out + s.out[|r.out|..]
  {
  }

  lemma {:induction false} OutPrefix(p: Progress, r: Progress, bs: seq<byte>, pre: seq<byte>)
    requires p.Progress? && r.Progress? && p.st == r.st && p.out == pre + r.out
    ensures var q, s := FeedAll(p, bs), FeedAll(r, bs);
            if s.Stopped? then q == s else q.Progress? && q.st == s.st && q.out == pre + s.out
    decreases |bs|
  {
    if bs != [] {
      var p1, r1 := Then(p, bs[0]), Then(r, bs[0]);
      ThenOut(p, r, bs[0]);
      if r1.Stopped? {
        StoppedStays(r1, bs[1..]);
      } else {
        assert p1.out == pre + r1.out;
        OutPrefix(p1, r1, bs[1..], pre);
      }
    }
  }

  lemma {:induction false} ChunkingIrrelevant(st: State, chunks: seq<seq<byte>>)
    requires Parsed(st, Concat(chunks)).Progress?
    ensures ChunkPayloads(st, chunks) == Parsed(st, Concat(chunks)).out
    decreases |chunks|
  {
    if chunks != [] {
      var p := Progress(st, [], 0);
      FeedAllConcat(p, chunks[0], Concat(chunks[1..]));
      var q := Parsed(st, chunks[0]);
      if q.Stopped? {
        StoppedStays(q, Concat(chunks[1..]));
        assert false;
      }
      assert q.out == q.out + [];
      OutPrefix(q, Progress(q.st, [], 0), Concat(chunks[1..]), q.out);
      ChunkingIrrelevant(q.st, chunks[1..]);
    }
  }
}
