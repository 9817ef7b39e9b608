/** The YubiKey HID exchange: challenge padding, the request frame, its records, and the response. */
module ChalrespFrames {
  import opened Wrappers
  import opened Bytes
  import opened Chalresp

  const RECORD_SIZE := 7
  const REPORT_SIZE := 8
  const DATA_SIZE := 64
  const FRAME_SIZE := 70
  const RECORDS := 10
  const HMAC_LEN := 20
  const SLOT_WRITE_FLAG: Byte := 0x80

  function Fill(n: nat, b: Byte): (s: Bytes)
    ensures |s| == n
  {
    seq(n, _ => b)
  }

  // ----- padding -----

  function PadByte(challenge: Bytes): Byte {
    if challenge != [] && challenge[|challenge| - 1] == 0 then 1 else 0
  }

  /** A challenge in the 64-byte data area. */
  function Pad(challenge: Bytes): (p: Bytes)
    ensures |p| == DATA_SIZE
  {
    if |challenge| >= DATA_SIZE then challenge[..DATA_SIZE]
    else challenge + Fill(DATA_SIZE - |challenge|, PadByte(challenge))
  }

  /** What a slot in variable-length mode takes as the challenge: the data area
      without its trailing run of equal bytes. */
  function Unpad(p: Bytes): Bytes {
    if p == [] then [] else DropTrailing(p, p[|p| - 1])
  }

  function DropTrailing(p: Bytes, b: Byte): (r: Bytes)
    ensures |r| <= |p|
    ensures p != [] && p[|p| - 1] == b ==> |r| < |p|
  {
    if p != [] && p[|p| - 1] == b then DropTrailing(p[..|p| - 1], b) else p
  }

  lemma {:induction false} DropTrailingFill(c: Bytes, n: nat, b: Byte)
    requires c == [] || c[|c| - 1] != b
    ensures DropTrailing(c + Fill(n, b), b) == c
  {
    if n == 0 {
      assert c + Fill(n, b) == c;
    } else {
      assert (c + Fill(n, b))[..|c| + n - 1] == c + Fill(n - 1, b);
      DropTrailingFill(c, n - 1, b);
    }
  }

  /** The slot recovers the challenge exactly when it is shorter than the data area. */
  lemma PadRoundTrip(challenge: Bytes)
    ensures Unpad(Pad(challenge)) == challenge <==> |challenge| < DATA_SIZE
  {
    if |challenge| < DATA_SIZE {
      var b := PadByte(challenge);
      assert Pad(challenge)[DATA_SIZE - 1] == b;
      DropTrailingFill(challenge, DATA_SIZE - |challenge|, b);
    }
  }

  method CopyInto(a: array<Byte>, at: nat, s: Bytes)
    requires at + |s| <= a.Length
    modifies a
    ensures a[..] == old(a[..at]) + s + old(a[at + |s|..])
  {
    for i := 0 to |s|
      invariant forall k :: 0 <= k < i ==> a[at + k] == s[k]
      invariant forall k :: 0 <= k < a.Length && !(at <= k < at + i) ==> a[k] == old(a[k])
    {
      a[at + i] := s[i];
    }
    assert forall k :: at <= k < at + |s| ==> a[k] == s[k - at];
  }

  method PadChallenge(challenge: Bytes) returns (p: array<Byte>)
    ensures fresh(p) && p.Length == DATA_SIZE && p[..] == Pad(challenge)
  {
    p := new Byte[DATA_SIZE](_ => 0);
    var n := if |challenge| < DATA_SIZE then |challenge| else DATA_SIZE;
    CopyInto(p, 0, challenge[..n]);
    if |challenge| < DATA_SIZE {
      var pad: Byte := 0;
      if |challenge| > 0 && challenge[|challenge| - 1] == 0 {
        pad := 1;
      }
      assert forall k :: 0 <= k < n ==> p[k] == p[..][k] == challenge[k];
      for i := n to DATA_SIZE
        invariant forall k :: 0 <= k < n ==> p[k] == challenge[k]
        invariant forall k :: n <= k < i ==> p[k] == pad
      {
        p[i] := pad;
      }
      assert p[..] == Pad(challenge);
    }
  }

  // ----- the request frame -----

  /** Payload, slot, checksum low byte first, filler. */
  function Frame(challenge: Bytes, slot: Byte): (f: Bytes)
    ensures |f| == FRAME_SIZE
  {
    var payload := Pad(challenge);
    var crc := Crc(ONES, payload);
    payload + [slot, LowByte(crc), HighByte(crc), 0, 0, 0]
  }

  method BuildFrame(challenge: Bytes, slot: Byte) returns (frame: array<Byte>)
    ensures fresh(frame) && frame.Length == FRAME_SIZE && frame[..] == Frame(challenge, slot)
  {
    var payload := PadChallenge(challenge);
    frame := PayloadFrame(payload[..]);
    var crc := YubikeyCRC16(frame[..DATA_SIZE]);
    frame[DATA_SIZE] := slot;
    frame[DATA_SIZE + 1] := LowByte(crc);
    frame[DATA_SIZE + 2] := HighByte(crc);
  }

  /** A zeroed frame holding the payload. */
  method PayloadFrame(payload: Bytes) returns (frame: array<Byte>)
    requires |payload| == DATA_SIZE
    ensures fresh(frame) && frame.Length == FRAME_SIZE
    ensures frame[..DATA_SIZE] == payload && forall i :: DATA_SIZE <= i < FRAME_SIZE ==> frame[i] == 0
  {
    frame := new Byte[FRAME_SIZE](_ => 0);
    CopyInto(frame, 0, payload);
    assert frame[..DATA_SIZE] == frame[..][..DATA_SIZE];
    assert forall i :: DATA_SIZE <= i < FRAME_SIZE ==> frame[i] == frame[..][i];
  }

  /** A frame says which slot and, below the full 64 bytes, which challenge it was built from. */
  lemma FrameInjective(c: Bytes, s: Byte, d: Bytes, t: Byte)
    requires |c| < DATA_SIZE && |d| < DATA_SIZE && Frame(c, s) == Frame(d, t)
    ensures c == d && s == t
  {
    assert Pad(c) == Frame(c, s)[..DATA_SIZE] == Pad(d);
    assert s == Frame(c, s)[DATA_SIZE] == t;
    PadRoundTrip(c);
    PadRoundTrip(d);
  }

  /** The checksum field of a frame is the one continuation of its payload that clears
      the register; it is not the one that leaves the residual. */
  lemma FrameChecksum(challenge: Bytes, slot: Byte, lo: Byte, hi: Byte)
    ensures Crc(ONES, Pad(challenge) + [lo, hi]) == Repeat(false)
        <==> lo == Frame(challenge, slot)[65] && hi == Frame(challenge, slot)[66]
  {
    UniqueClearingSuffix(Pad(challenge), lo, hi);
  }

  // ----- records -----

  predicate IsZero(s: Bytes) { forall i :: 0 <= i < |s| ==> s[i] == 0 }

  type FrameBytes = f: Bytes | |f| == FRAME_SIZE witness Fill(FRAME_SIZE, 0)

  /** Seven data bytes and a flags byte. */
  type Report = r: Bytes | |r| == REPORT_SIZE witness Fill(REPORT_SIZE, 0)

  function Record(frame: FrameBytes, k: nat): (r: Bytes)
    requires k < RECORDS
    ensures |r| == RECORD_SIZE
  {
    frame[RECORD_SIZE * k..RECORD_SIZE * (k + 1)]
  }

  function ReportOf(frame: FrameBytes, k: nat): Report
    requires k < RECORDS
  {
    Record(frame, k) + [SLOT_WRITE_FLAG + k]
  }

  /** The reports, in order, of the records among the first n that keep selects. */
  function Chosen(frame: FrameBytes, n: nat, keep: nat -> bool): seq<Report>
    requires n <= RECORDS
  {
    if n == 0 then []
    else Chosen(frame, n - 1, keep) + (if keep(n - 1) then [ReportOf(frame, n - 1)] else [])
  }

  /** The records that are sent: the first, the last, and every one holding data. */
  predicate Sent(frame: FrameBytes, k: nat) {
    k < RECORDS && (k == 0 || k == RECORDS - 1 || !IsZero(Record(frame, k)))
  }

  /** The reports of the first n records that go out. */
  function Requests(frame: FrameBytes, n: nat): seq<Report>
    requires n <= RECORDS
  {
    Chosen(frame, n, (k: nat) => Sent(frame, k))
  }

  /** The device puts a report's bytes where its sequence number says. */
  function Deliver(buf: FrameBytes, report: Report): FrameBytes {
    var at := RECORD_SIZE * (report[RECORD_SIZE] % 32);
    if at + RECORD_SIZE <= FRAME_SIZE then buf[..at] + report[..RECORD_SIZE] + buf[at + RECORD_SIZE..] else buf
  }

  /** The device's frame after some reports, from a cleared buffer. */
  function Reassemble(reports: seq<Report>): FrameBytes {
    if reports == [] then Fill(FRAME_SIZE, 0)
    else Deliver(Reassemble(reports[..|reports| - 1]), reports[|reports| - 1])
  }

  lemma ReassembleMore(reports: seq<Report>, r: Report)
    ensures Reassemble(reports + [r]) == Deliver(Reassemble(reports), r)
  {
    assert (reports + [r])[..|reports|] == reports;
  }

  lemma DeliverByte(buf: FrameBytes, frame: FrameBytes, k: nat, i: nat, q: nat)
    requires k < RECORDS && i < FRAME_SIZE && q == i / RECORD_SIZE
    ensures Deliver(buf, ReportOf(frame, k))[i] == if q == k then frame[i] else buf[i]
  {
    var r := ReportOf(frame, k);
    assert r[RECORD_SIZE] % 32 == k;
    assert r[..RECORD_SIZE] == Record(frame, k);
    assert q == k <==> RECORD_SIZE * k <= i < RECORD_SIZE * k + RECORD_SIZE;
  }

  lemma ChosenNext(frame: FrameBytes, n: nat, keep: nat -> bool)
    requires n < RECORDS
    ensures keep(n) ==>
      Reassemble(Chosen(frame, n + 1, keep)) == Deliver(Reassemble(Chosen(frame, n, keep)), ReportOf(frame, n))
    ensures !keep(n) ==> Chosen(frame, n + 1, keep) == Chosen(frame, n, keep)
  {
    if keep(n) {
      ReassembleMore(Chosen(frame, n, keep), ReportOf(frame, n));
    }
  }

  /** The device's buffer after the chosen records among the first n. */
  function Image(frame: FrameBytes, n: nat, keep: nat -> bool): FrameBytes
    requires n <= RECORDS
  {
    if n == 0 then Fill(FRAME_SIZE, 0)
    else if keep(n - 1) then Deliver(Image(frame, n - 1, keep), ReportOf(frame, n - 1))
    else Image(frame, n - 1, keep)
  }

  lemma {:induction false} ChosenImage(frame: FrameBytes, n: nat, keep: nat -> bool)
    requires n <= RECORDS
    ensures Reassemble(Chosen(frame, n, keep)) == Image(frame, n, keep)
  {
    if n > 0 {
      ChosenImage(frame, n - 1, keep);
      ChosenNext(frame, n - 1, keep);
    }
  }

  /** Byte i after the chosen records: the frame's where its record went out, else zero. */
  lemma {:induction false} ImageBytes(frame: FrameBytes, n: nat, keep: nat -> bool, i: nat, q: nat)
    requires n <= RECORDS && i < FRAME_SIZE && q == i / RECORD_SIZE
    ensures Image(frame, n, keep)[i] == if q < n && keep(q) then frame[i] else 0
  {
    if n > 0 {
      var before := Image(frame, n - 1, keep);
      ImageBytes(frame, n - 1, keep, i, q);
      if keep(n - 1) {
        DeliverByte(before, frame, n - 1, i, q);
      }
    }
  }

  /** Leaving records out gives the device the frame exactly when every one left out is zero. */
  lemma SkipExact(frame: FrameBytes, keep: nat -> bool)
    ensures Reassemble(Chosen(frame, RECORDS, keep)) == frame
        <==> forall k: nat :: k < RECORDS && !keep(k) ==> IsZero(Record(frame, k))
  {
    var n: nat := RECORDS;
    var got := Image(frame, n, keep);
    ChosenImage(frame, n, keep);
    forall i: nat | i < FRAME_SIZE
      ensures got[i] == if keep(i / RECORD_SIZE) then frame[i] else 0
    {
      ImageBytes(frame, n, keep, i, i / RECORD_SIZE);
    }
    if got == frame {
      forall k: nat | k < RECORDS && !keep(k) ensures IsZero(Record(frame, k)) {
        forall j | 0 <= j < RECORD_SIZE ensures Record(frame, k)[j] == 0 {
          assert got[RECORD_SIZE * k + j] == 0 by { assert (RECORD_SIZE * k + j) / RECORD_SIZE == k; }
        }
      }
    }
    if forall k: nat :: k < RECORDS && !keep(k) ==> IsZero(Record(frame, k)) {
      forall i: nat | i < FRAME_SIZE ensures got[i] == frame[i] {
        var k := i / RECORD_SIZE;
        assert frame[i] == Record(frame, k)[i - RECORD_SIZE * k];
      }
    }
  }

  /** Skipping zero records changes nothing: the records that go out give the device the
      same frame as all ten. */
  lemma SentRecordsSuffice(frame: FrameBytes)
    ensures Reassemble(Requests(frame, RECORDS)) == frame
    ensures Reassemble(Chosen(frame, RECORDS, (k: nat) => true)) == frame
  {
    SkipExact(frame, (k: nat) => Sent(frame, k));
    SkipExact(frame, (k: nat) => true);
  }

  method AllZero(s: Bytes) returns (zero: bool)
    ensures zero == IsZero(s)
  {
    for i := 0 to |s|
      invariant forall k :: 0 <= k < i ==> s[k] == 0
    {
      if s[i] != 0 {
        return false;
      }
    }
    return true;
  }

  /** Sends a frame; accepts says whether the device takes the k-th record. The device is
      left with the frame, or with a prefix of its records when it stopped accepting. */
  method SendFrame(frame: FrameBytes, accepts: nat -> bool) returns (sent: seq<Report>, ok: bool)
    ensures ok ==> Reassemble(sent) == frame
    ensures ok <==> forall k: nat :: k < RECORDS && Sent(frame, k) ==> accepts(k)
    ensures exists n: nat :: n <= RECORDS && sent == Requests(frame, n)
  {
    sent := [];
    for k := 0 to RECORDS
      invariant sent == Requests(frame, k)
      invariant forall j: nat :: j < k && Sent(frame, j) ==> accepts(j)
    {
      var rec := frame[k * RECORD_SIZE..(k + 1) * RECORD_SIZE];
      var zero := AllZero(rec);
      if zero && k > 0 && k != RECORDS - 1 {
        assert !Sent(frame, k);
        continue;
      }
      assert Sent(frame, k);
      if !accepts(k) {
        return sent, false;
      }
      sent := sent + [rec + [SLOT_WRITE_FLAG + k]];
    }
    SentRecordsSuffice(frame);
    return sent, true;
  }

  // ----- the response -----

  /** A status read that succeeded and carries response bytes. */
  predicate Pending(r: Option<Report>) { r.Some? && r.value[RECORD_SIZE] / 0x40 % 2 == 1 }

  predicate Terminator(r: Option<Report>) { Pending(r) && r.value[RECORD_SIZE] % 32 == 0 }

  function DataOf(r: Option<Report>): (s: Bytes)
    ensures |s| == RECORD_SIZE
  {
    if r.Some? then r.value[..RECORD_SIZE] else Fill(RECORD_SIZE, 0)
  }

  /** The data of the first report and of the n reports after it. */
  function Gathered(first: Report, status: nat -> Option<Report>, n: nat): (s: Bytes)
    ensures |s| == RECORD_SIZE * (n + 1)
  {
    if n == 0 then first[..RECORD_SIZE] else Gathered(first, status, n - 1) + DataOf(status(n - 1))
  }

  /** Report n ends the response and every one before it carries data. */
  predicate EndsAt(status: nat -> Option<Report>, n: nat) {
    Terminator(status(n)) && forall k: nat :: k < n ==> Pending(status(k)) && !Terminator(status(k))
  }

  const RESPONSE_LEN := HMAC_LEN + 2
  const MAX_READS := 16

  /** Twenty bytes followed by the complement of their checksum. */
  predicate Sealed(s: Bytes) { |s| >= RESPONSE_LEN && s[HMAC_LEN..RESPONSE_LEN] == Complement(s[..HMAC_LEN]) }

  lemma SealedIsResidual(s: Bytes)
    requires |s| >= RESPONSE_LEN
    ensures Sealed(s) <==> Crc(ONES, s[..RESPONSE_LEN]) == RESIDUAL
  {
    assert s[..RESPONSE_LEN] == s[..HMAC_LEN] + s[HMAC_LEN..RESPONSE_LEN];
    UniqueValidSuffix(s[..HMAC_LEN], s[HMAC_LEN..RESPONSE_LEN]);
  }

  /** A response with any one of its 22 bytes altered is refused. */
  lemma AlteredResponseRefused(s: Bytes, k: nat, x: Byte)
    requires Sealed(s) && k < RESPONSE_LEN && x != s[k]
    ensures !Sealed(s[k := x])
  {
    SealedIsResidual(s);
    SealedIsResidual(s[k := x]);
    SingleByteDetected(s[..RESPONSE_LEN], k, x);
    assert s[k := x][..RESPONSE_LEN] == s[..RESPONSE_LEN][k := x];
  }

  method CheckResponse(buf: Bytes) returns (r: Option<Bytes>)
    ensures r == if Sealed(buf) then Some(buf[..HMAC_LEN]) else None
  {
    if |buf| < RESPONSE_LEN {
      return None;
    }
    var crc := YubikeyCRC16(buf[..RESPONSE_LEN]);
    SealedIsResidual(buf);
    if crc != RESIDUAL {
      return None;
    }
    return Some(buf[..HMAC_LEN]);
  }

  /** Reads the response whose first report is given and whose later ones the device
      supplies. It succeeds exactly when the response ends within the frame, holds 22
      bytes, and its last two are the complement of the checksum of the first 20, which
      are returned. */
  method ReadResponse(first: Report, status: nat -> Option<Report>) returns (r: Option<Bytes>)
    ensures r.Some? <==> exists n: nat :: n < RECORDS - 1 && EndsAt(status, n) && Sealed(Gathered(first, status, n))
    ensures forall n: nat :: r.Some? && EndsAt(status, n) ==> r.value == Gathered(first, status, n)[..HMAC_LEN]
  {
    var buf := first[..RECORD_SIZE];
    var i := 0;
    while |buf| + RECORD_SIZE <= FRAME_SIZE
      invariant 0 <= i < RECORDS && buf == Gathered(first, status, i)
      invariant forall k: nat :: k < i ==> Pending(status(k)) && !Terminator(status(k))
      decreases FRAME_SIZE - |buf|
    {
      if i >= MAX_READS {
        assert false;
      }
      var rep := status(i);
      if !Pending(rep) {
        return None;
      }
      if Terminator(rep) {
        assert EndsAt(status, i);
        forall n: nat | EndsAt(status, n) ensures n == i { }
        r := CheckResponse(buf);
        return;
      }
      buf := buf + rep.value[..RECORD_SIZE];
      i := i + 1;
    }
    return None;
  }
  // ----- bit by bit -----

  /** The challenge, then zeros, or ones behind a challenge that ends in zero. */
  lemma PadBytes(challenge: Bytes, i: nat)
    requires i < 64
    ensures Pad(challenge)[i] == if i < |challenge| then challenge[i]
                                 else if challenge != [] && challenge[|challenge| - 1] == 0 then 1 else 0
  {
  }

  /** What stands where in a frame; the checksum is that of the 64 bytes before it, low byte first. */
  lemma FrameBytesExact(challenge: Bytes, slot: Byte)
    ensures var f := Frame(challenge, slot);
      && f[..64] == Pad(challenge) && f[64] == slot
      && Word(f[65], f[66]) == Crc(ONES, f[..64]) && f[67] == f[68] == f[69] == 0
  {
    var f := Frame(challenge, slot);
    assert f[..64] == Pad(challenge);
    WordBytes(Crc(ONES, f[..64]));
  }

  /** Which records go out: the first, the last, and every one with a byte that is not zero. */
  lemma SentExact(frame: FrameBytes, k: nat)
    requires k < 10
    ensures Sent(frame, k) <==> k == 0 || k == 9 || exists i :: 7 * k <= i < 7 * k + 7 && frame[i] != 0
  {
    forall j | 0 <= j < 7 ensures Record(frame, k)[j] == frame[7 * k + j] { }
    if i :| 7 * k <= i < 7 * k + 7 && frame[i] != 0 {
      assert Record(frame, k)[i - 7 * k] != 0;
    }
  }

  /** A status report carries response bytes when bit 6 of its flags is set, and ends the response
      when its sequence number, the low five bits, is zero too. */
  lemma FlagsExact(r: Report)
    ensures Pending(Some(r)) <==> 0x40 <= r[7] < 0x80 || 0xC0 <= r[7]
    ensures Terminator(Some(r)) <==> r[7] in {0x40, 0x60, 0xC0, 0xE0}
  {
  }
}
