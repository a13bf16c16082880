/** The chunked status-line reader of the readiness probe (src/healthcheck.rs). */
module Probe {
  import opened Wrappers

  type Byte = b: int | 0 <= b < 256

  const MAX_STATUS_BYTES: nat := 512

  datatype Failure = IoError | UnexpectedEof | NotReady | TooLong

  const CR: Byte := 13
  const LF: Byte := 10

  /** The bytes of an ASCII text. */
  function Bytes(text: string): (b: seq<Byte>)
    requires forall i | 0 <= i < |text| :: text[i] < '\U{0080}'
    ensures |b| == |text| && forall i | 0 <= i < |b| :: b[i] == text[i] as int
  {
    seq(|text|, i requires 0 <= i < |text| => text[i] as int)
  }

  predicate IsCrlfAt(bytes: seq<Byte>, i: nat) {
    i + 1 < |bytes| && bytes[i] == CR && bytes[i + 1] == LF
  }

  predicate IsFirstCrlf(bytes: seq<Byte>, i: nat) {
    IsCrlfAt(bytes, i) && forall j: nat | j < i :: !IsCrlfAt(bytes, j)
  }

  /** A tab, a space, a visible character or a byte above ASCII. */
  predicate IsReasonByte(b: Byte) { b == 9 || (b >= 32 && b != 127) }

  /** check_status */
  predicate ChecksStatus(line: seq<Byte>) {
    && (Bytes("HTTP/1.1 200 ") <= line || Bytes("HTTP/1.0 200 ") <= line)
    && forall i | 13 <= i < |line| :: IsReasonByte(line[i])
  }

  /** A tab, or what is neither a control character nor DEL. */
  predicate IsReasonPhrase(reason: seq<Byte>) {
    forall i | 0 <= i < |reason| :: reason[i] == 9 || 32 <= reason[i] <= 126 || reason[i] >= 128
  }

  /** status-line = "HTTP/1." ( "0" / "1" ) SP "200" SP [ reason-phrase ], as in section 4 of RFC 9112. */
  ghost predicate IsStatusLine(line: seq<Byte>, minor: Byte, status: seq<Byte>, reason: seq<Byte>) {
    && (minor == 48 || minor == 49) && |status| == 3
    && line == [72, 84, 84, 80, 47, 49, 46] + [minor] + [32] + status + [32] + reason
  }

  /** The line says 200 and no more than a reason phrase beside it. */
  ghost predicate IsStatusLine200(line: seq<Byte>) {
    exists minor, reason :: IsStatusLine(line, minor, [50, 48, 48], reason) && IsReasonPhrase(reason)
  }

  /** Where the parts of a status line stand. */
  lemma StatusLineParts(line: seq<Byte>, minor: Byte, status: seq<Byte>, reason: seq<Byte>)
    requires IsStatusLine(line, minor, status, reason)
    ensures |line| >= 13 && line[..7] == [72, 84, 84, 80, 47, 49, 46] && line[7] == minor && line[8] == 32
    ensures line[9..12] == status && line[12] == 32 && line[13..] == reason
  {
  }

  /** The two texts that the check compares with, byte by byte. */
  lemma HeadIs(minor: Byte)
    requires minor == 48 || minor == 49
    ensures Bytes(if minor == 49 then "HTTP/1.1 200 " else "HTTP/1.0 200 ")
         == [72, 84, 84, 80, 47, 49, 46, minor, 32, 50, 48, 48, 32]
  {
  }

  lemma StatusLineHead(line: seq<Byte>, minor: Byte)
    requires minor == 48 || minor == 49
    ensures [72, 84, 84, 80, 47, 49, 46, minor, 32, 50, 48, 48, 32] <= line <==>
            |line| >= 13 && IsStatusLine(line, minor, [50, 48, 48], line[13..])
  {
    var head: seq<Byte> := [72, 84, 84, 80, 47, 49, 46, minor, 32, 50, 48, 48, 32];
    assert [72, 84, 84, 80, 47, 49, 46] + [minor] + [32] + [50, 48, 48] + [32] == head;
    if head <= line {
      assert line == head + line[13..];
    }
  }

  lemma ReasonFollows(line: seq<Byte>)
    requires |line| >= 13
    ensures IsReasonPhrase(line[13..]) <==> forall i | 13 <= i < |line| :: IsReasonByte(line[i])
  {
    var reason := line[13..];
    assert forall i | 0 <= i < |reason| :: reason[i] == line[i + 13];
    assert forall i | 13 <= i < |line| :: line[i] == reason[i - 13];
  }

  lemma CheckedIsStatusLine(line: seq<Byte>, minor: Byte)
    requires minor == 48 || minor == 49
    ensures Bytes(if minor == 49 then "HTTP/1.1 200 " else "HTTP/1.0 200 ") <= line <==>
            |line| >= 13 && IsStatusLine(line, minor, [50, 48, 48], line[13..])
  {
    HeadIs(minor);
    hide Bytes;
    StatusLineHead(line, minor);
  }

  lemma CheckIsGrammar(line: seq<Byte>)
    ensures ChecksStatus(line) <==> IsStatusLine200(line)
  {
    CheckedIsStatusLine(line, 48);
    CheckedIsStatusLine(line, 49);
    if |line| >= 13 { ReasonFollows(line); }
    hide Bytes, IsStatusLine, IsReasonPhrase, IsReasonByte;
    if IsStatusLine200(line) {
      var minor: Byte, reason :| IsStatusLine(line, minor, [50, 48, 48], reason) && IsReasonPhrase(reason);
      StatusLineParts(line, minor, [50, 48, 48], reason);
      MinorIs(line, minor, [50, 48, 48], reason);
    }
  }

  lemma MinorIs(line: seq<Byte>, minor: Byte, status: seq<Byte>, reason: seq<Byte>)
    requires IsStatusLine(line, minor, status, reason)
    ensures minor == 48 || minor == 49
  {
  }

  /** Of the status lines exactly those with the digits 200 and a proper reason phrase are accepted. */
  lemma StatusDecides(line: seq<Byte>, minor: Byte, status: seq<Byte>, reason: seq<Byte>)
    requires IsStatusLine(line, minor, status, reason)
    ensures IsStatusLine200(line) <==> status == [50, 48, 48] && IsReasonPhrase(reason)
  {
    StatusLineParts(line, minor, status, reason);
    if IsStatusLine200(line) {
      var m: Byte, r :| IsStatusLine(line, m, [50, 48, 48], r) && IsReasonPhrase(r);
      StatusLineParts(line, m, [50, 48, 48], r);
    }
  }

  /** A server that answers with a status line is ready exactly if it says 200 within 512 bytes. */
  lemma AnswerDecides(minor: Byte, status: seq<Byte>, reason: seq<Byte>, rest: seq<Byte>)
    requires (minor == 48 || minor == 49) && |status| == 3 && 13 !in status && 13 !in reason
    ensures var line := [72, 84, 84, 80, 47, 49, 46] + [minor] + [32] + status + [32] + reason;
            IsReady(line + [13, 10] + rest) <==> |reason| <= 497 && status == [50, 48, 48] && IsReasonPhrase(reason)
  {
    var line := [72, 84, 84, 80, 47, 49, 46] + [minor] + [32] + status + [32] + reason;
    var stream := line + [13, 10] + rest;
    assert forall i | 0 <= i < |line| :: line[i] != 13;
    assert forall i | 0 <= i < |line| :: stream[i] == line[i];
    assert IsFirstCrlf(stream, |line|) && stream[..|line|] == line;
    StatusDecides(line, minor, status, reason);
    if |line| + 2 <= 512 {
      FirstCrlfIsUnique(stream, |line|);
    }
    if IsReady(stream) {
      var end: nat :| IsFirstCrlf(stream, end) && end + 2 <= MAX_STATUS_BYTES && IsStatusLine200(stream[..end]);
      assert end == |line|;
    }
  }

  /** The whole stream answers the question: a status line ends within the first 512 bytes and says 200. */
  ghost predicate IsReady(stream: seq<Byte>) {
    exists end: nat :: IsFirstCrlf(stream, end) && end + 2 <= MAX_STATUS_BYTES && IsStatusLine200(stream[..end])
  }

  /** What one `read` does: fail, or deliver some of the bytes asked for (none only at the end). */
  function ReadCount(stream: seq<Byte>, used: nat, space: nat, wish: nat): (n: nat)
    requires used <= |stream| && space > 0
    ensures n <= space && used + n <= |stream| && (n == 0 <==> used == |stream|)
  {
    var available := |stream| - used;
    var most := if available < space then available else space;
    if wish == 0 && most > 0 then 1 else if wish < most then wish else most
  }

  lemma CrlfInPrefix(stream: seq<Byte>, used: nat)
    requires used <= |stream|
    ensures forall i: nat :: IsCrlfAt(stream[..used], i) <==> IsCrlfAt(stream, i) && i + 2 <= used
  {
  }

  lemma FoundInPrefix(stream: seq<Byte>, used: nat, end: nat)
    requires used <= |stream| && IsFirstCrlf(stream[..used], end)
    ensures end + 2 <= used && IsFirstCrlf(stream, end) && stream[..used][..end] == stream[..end]
  {
    CrlfInPrefix(stream, used);
    assert forall j: nat | j < end :: !IsCrlfAt(stream[..used], j);
  }

  /** `windows(2).position(|pair| pair == b"\r\n")` */
  method FindCrlf(bytes: seq<Byte>) returns (end: Option<nat>)
    ensures end.None? ==> forall i: nat :: !IsCrlfAt(bytes, i)
    ensures end.Some? ==> IsFirstCrlf(bytes, end.value)
  {
    var i: nat := 0;
    while i + 1 < |bytes|
      invariant forall j: nat | j < i :: !IsCrlfAt(bytes, j)
    {
      if bytes[i] == CR && bytes[i + 1] == LF {
        return Some(i);
      }
      i := i + 1;
    }
    return None;
  }

  /**
   The read loop, over a server that sends `stream` and ends.  `wish` decides how many bytes the k-th
   read delivers and `broken` whether it fails (a socket error or the expired deadline).  Unbroken, the
   outcome depends on the stream alone; broken, it is never a false "ready".
   */
  method ReadStatus(stream: seq<Byte>, wish: nat -> nat, broken: nat -> bool) returns (r: Result<(), Failure>)
    ensures r.Ok? ==> IsReady(stream)
    ensures (forall k :: !broken(k)) ==> (r.Ok? <==> IsReady(stream))
    ensures (forall k :: !broken(k)) && r.Err? ==> r.error != IoError
    ensures r == Err(UnexpectedEof) ==> |stream| < MAX_STATUS_BYTES && forall i: nat :: !IsCrlfAt(stream, i)
    ensures r == Err(TooLong) ==> |stream| >= MAX_STATUS_BYTES && forall i: nat | i + 2 <= MAX_STATUS_BYTES :: !IsCrlfAt(stream, i)
  {
    var response := new Byte[MAX_STATUS_BYTES];
    var used: nat := 0;
    var k: nat := 0;
    while used < response.Length
      invariant used <= response.Length == MAX_STATUS_BYTES && used <= |stream|
      invariant response[..used] == stream[..used]
      invariant forall i: nat | i + 2 <= used :: !IsCrlfAt(stream, i)
    {
      if broken(k) {
        return Err(IoError);
      }
      var count := ReadCount(stream, used, response.Length - used, wish(k));
      if count == 0 {
        return Err(UnexpectedEof);
      }
      forall i | used <= i < used + count {
        response[i] := stream[i];
      }
      used := used + count;
      k := k + 1;
      assert response[..used] == stream[..used];
      CrlfInPrefix(stream, used);
      var end := FindCrlf(response[..used]);
      if end.Some? {
        FoundInPrefix(stream, used, end.value);
        var line := response[..end.value];
        assert line == response[..used][..end.value];
        CheckIsGrammar(line);
        FirstCrlfIsUnique(stream, end.value);
        if ChecksStatus(line) {
          return Ok(());
        } else {
          return Err(NotReady);
        }
      }
    }
    return Err(TooLong);
  }

  lemma FirstCrlfIsUnique(stream: seq<Byte>, end: nat)
    requires IsFirstCrlf(stream, end) && end + 2 <= MAX_STATUS_BYTES
    ensures IsReady(stream) <==> IsStatusLine200(stream[..end])
  {
    if IsReady(stream) {
      var e: nat :| IsFirstCrlf(stream, e) && e + 2 <= MAX_STATUS_BYTES && IsStatusLine200(stream[..e]);
      assert e == end;
    }
  }
}
