/** The TLV composer and reader of quectel_cm_5G/src/QMIThread.c. A message is a QMI header (6 bytes), a
    QMUX header (3), a message header of type and length (4), and the TLVs. */
module QmiTlv {
  import opened Bytes

  datatype Tlv = Tlv(kind: byte, value: seq<byte>)

  /** The strings are C strings or NULL; the numbers are ints that are stored in one byte. */
  datatype Profile = Profile(apn: Option<seq<byte>>, user: Option<seq<byte>>, password: Option<seq<byte>>,
                             auth: int, pdp: int, ipType: int, ipFamily: int)

  const BUFFER: nat := 256
  const MSG_HDR: nat := 9
  const TLVS: nat := 13

  const CDMA_USER: seq<byte> := [99, 116, 110, 101, 116, 64, 109, 121, 99, 100, 109, 97, 46, 99, 110]
  const CDMA_PASSWORD: seq<byte> := [118, 110, 101, 116, 46, 109, 111, 98, 105]

  // ---------------------------------------------------------------- the format

  function Octet(n: int): byte {
    (n % 256) as byte
  }

  function Le16(n: nat): (r: seq<byte>)
    ensures |r| == 2
  {
    [Octet(n), Octet(n / 256)]
  }

  function FromLe16(lo: byte, hi: byte): (n: nat)
    ensures n < 65536
  {
    lo as nat + 256 * hi as nat
  }

  function EncodeTlv(t: Tlv): (r: seq<byte>)
    ensures |r| == 3 + |t.value|
  {
    [t.kind] + Le16(|t.value|) + t.value
  }

  function Encode(tlvs: seq<Tlv>): seq<byte> {
    if tlvs == [] then [] else EncodeTlv(tlvs[0]) + Encode(tlvs[1..])
  }

  /** The headers in front of `n` bytes of TLVs. */
  function Headers(qmiType: byte, tid: nat, msgType: nat, n: nat): (r: seq<byte>)
    ensures |r| == TLVS
  {
    [1] + Le16(n + TLVS - 1) + [0, qmiType, 0] + [0] + Le16(tid) + Le16(msgType) + Le16(n)
  }

  function Message(qmiType: byte, tid: nat, msgType: nat, tlvs: seq<Tlv>): (r: seq<byte>)
    ensures |r| == TLVS + |Encode(tlvs)|
  {
    Headers(qmiType, tid, msgType, |Encode(tlvs)|) + Encode(tlvs)
  }

  // ---------------------------------------------------------------- what a request says

  function OptTlv(kind: byte, value: Option<seq<byte>>): seq<Tlv> {
    if value.Some? then [Tlv(kind, value.value)] else []
  }

  predicate Blank(s: Option<seq<byte>>) {
    s.None? || s.value == []
  }

  /** A CDMA network without user and password gets the operator's. */
  function Credentials(p: Profile, cdma: bool): Profile {
    if cdma && Blank(p.user) && Blank(p.password)
    then p.(user := Some(CDMA_USER), password := Some(CDMA_PASSWORD), auth := 2)
    else p
  }

  function AuthOf(p: Profile): Option<seq<byte>> {
    if p.user.Some? && p.password.Some? then Some([Octet(p.auth)]) else None
  }

  /** `WdsStartNwInterfaceReq`. */
  function StartTlvs(profile: Profile, cdma: bool): seq<Tlv> {
    var p := Credentials(profile, cdma);
    [Tlv(0x30, [if cdma then 2 else 1])] +
    OptTlv(0x14, if cdma then None else p.apn) +
    OptTlv(0x17, p.user) +
    OptTlv(0x18, p.password) +
    OptTlv(0x16, AuthOf(p)) +
    [Tlv(0x19, [Octet(p.ipFamily)])] +
    OptTlv(0x31, if p.pdp != 0 && !cdma then Some([Octet(p.pdp)]) else None)
  }

  /** `WdsModifyProfileSettingsReq`. */
  function ModifyTlvs(p: Profile): seq<Tlv> {
    [Tlv(0x01, [0, Octet(p.pdp)])] +
    [Tlv(0x11, [Octet(p.ipType)])] +
    OptTlv(0x14, p.apn) +
    OptTlv(0x1B, p.user) +
    OptTlv(0x1C, p.password) +
    OptTlv(0x1D, AuthOf(p))
  }

  /** The message fits the buffer. After the strings of a start request there is always another TLV, so
      the NUL that ends each copied string has room. */
  ghost predicate StartFits(p: Profile, cdma: bool) {
    TLVS + |Encode(StartTlvs(p, cdma))| <= BUFFER
  }

  /** A modify request may end in a string, whose NUL then needs one byte more. */
  ghost predicate ModifyFits(p: Profile) {
    TLVS + |Encode(ModifyTlvs(p))| +
    (if AuthOf(p).None? && (p.apn.Some? || p.user.Some? || p.password.Some?) then 1 else 0) <= BUFFER
  }

  lemma {:induction false} EncodeAppend(a: seq<Tlv>, b: seq<Tlv>)
    ensures Encode(a + b) == Encode(a) + Encode(b)
  {
    hide EncodeTlv;
    if a == [] {
      assert a + b == b;
    } else {
      EncodeAppend(a[1..], b);
      assert (a + b)[1..] == a[1..] + b && (a + b)[0] == a[0];
      var x, y, z := EncodeTlv(a[0]), Encode(a[1..]), Encode(b);
      assert x + (y + z) == x + y + z;
    }
  }

  lemma EncodeOne(t: Tlv)
    ensures Encode([t]) == EncodeTlv(t) && Encode([]) == []
  {
    assert [t][1..] == [];
  }

  // ---------------------------------------------------------------- composing

  class Composer {
    const buf: array<byte>
    /** Where the optional TLVs start, and how many bytes of them there are. */
    const start: nat
    var tlvLength: nat

    constructor (start: nat)
      requires start <= BUFFER
      ensures fresh(buf) && this.start == start && tlvLength == 0 && buf.Length == BUFFER
      ensures forall i :: 0 <= i < BUFFER ==> buf[i] == 0
    {
      buf := new byte[BUFFER](_ => 0);
      this.start := start;
      tlvLength := 0;
    }

    ghost predicate Wrote(tlvs: seq<Tlv>)
      reads this, buf
    {
      tlvLength == |Encode(tlvs)| && start + tlvLength <= buf.Length &&
      buf[start..start + tlvLength] == Encode(tlvs)
    }

    method PutHeader(kind: byte, length: nat)
      requires start + tlvLength + 3 <= buf.Length && length < 65536
      modifies buf
      ensures buf[..] == old(buf[..start + tlvLength]) + [kind] + Le16(length) + old(buf[start + tlvLength + 3..])
    {
      var p := start + tlvLength;
      buf[p] := kind;
      buf[p + 1] := Octet(length);
      buf[p + 2] := Octet(length / 256);
    }

    method PutByte(kind: byte, v: byte, ghost tlvs: seq<Tlv>)
      requires Wrote(tlvs) && start + tlvLength + 4 <= buf.Length
      modifies buf, `tlvLength
      ensures Wrote(tlvs + [Tlv(kind, [v])]) && buf[..start] == old(buf[..start])
      ensures tlvLength == old(tlvLength) + 4
    {
      hide Le16;
      ghost var before := buf[..];
      ghost var p := start + tlvLength;
      PutHeader(kind, 1);
      buf[start + tlvLength + 3] := v;
      tlvLength := tlvLength + 4;
      Extended(before, buf[..], start, p, tlvs, Tlv(kind, [v]));
    }

    /** `qstrcpy`: the NUL is copied too. */
    method CopyString(to: nat, s: seq<byte>)
      requires to + |s| + 1 <= buf.Length
      modifies buf
      ensures buf[..to + |s|] == old(buf[..to]) + s
    {
      ghost var front := buf[..to];
      for i := 0 to |s|
        invariant buf[..to + i] == front + s[..i]
      {
        buf[to + i] := s[i];
        assert buf[..to + i + 1] == buf[..to + i] + [s[i]];
        assert front + s[..i + 1] == front + s[..i] + [s[i]];
      }
      buf[to + |s|] := 0;
      assert s[..|s|] == s;
    }

    /** The length field does not count the NUL, so the next TLV overwrites it. */
    method PutString(kind: byte, s: seq<byte>, ghost tlvs: seq<Tlv>)
      requires Wrote(tlvs) && start + tlvLength + 3 + |s| + 1 <= buf.Length <= 65536
      modifies buf, `tlvLength
      ensures Wrote(tlvs + [Tlv(kind, s)]) && buf[..start] == old(buf[..start])
    {
      hide Le16, Encode;
      ghost var before := buf[..];
      ghost var p := start + tlvLength;
      PutHeader(kind, |s|);
      assert buf[..p + 3] == before[..p] + ([kind] + Le16(|s|));
      CopyString(start + tlvLength + 3, s);
      tlvLength := tlvLength + |s| + 3;
      Extended(before, buf[..], start, p, tlvs, Tlv(kind, s));
    }

    /** A string that may be NULL. */
    method PutOptional(kind: byte, s: Option<seq<byte>>, ghost tlvs: seq<Tlv>)
      requires Wrote(tlvs) && buf.Length <= 65536
      requires s.Some? ==> start + tlvLength + 3 + |s.value| + 1 <= buf.Length
      modifies buf, `tlvLength
      ensures Wrote(tlvs + OptTlv(kind, s)) && buf[..start] == old(buf[..start])
      ensures tlvLength == old(tlvLength) + Room(s)
    {
      hide Encode;
      if s.Some? {
        PutString(kind, s.value, tlvs);
        EncodeAppend(tlvs, [Tlv(kind, s.value)]);
        EncodeOne(Tlv(kind, s.value));
      } else {
        assert tlvs + [] == tlvs;
      }
    }

    /** `WdsStartNwInterfaceReq`: the TLVs after the message header. */
    method PutStart(profile: Profile, cdma: bool)
      requires start == TLVS && tlvLength == 0 && buf.Length == BUFFER && StartFits(profile, cdma)
      modifies buf, `tlvLength
      ensures Wrote(StartTlvs(profile, cdma))
    {
      hide Encode, Wrote;
      StartSize(profile, cdma);
      EncodeOne(Tlv(0, []));
      var user, password, auth := profile.user, profile.password, profile.auth;
      if cdma && Blank(user) && Blank(password) {
        user, password, auth := Some(CDMA_USER), Some(CDMA_PASSWORD), 2;
      }
      ghost var p := Credentials(profile, cdma);
      WroteNothing();
      ghost var tlvs: seq<Tlv> := [];
      var technology: byte := if cdma then 2 else 1;
      PutByte(0x30, technology, tlvs);
      tlvs := [Tlv(0x30, [technology])];
      assert [] + tlvs == tlvs;
      PutOptional(0x14, if cdma then None else profile.apn, tlvs);
      tlvs := tlvs + OptTlv(0x14, if cdma then None else profile.apn);
      PutOptional(0x17, user, tlvs);
      tlvs := tlvs + OptTlv(0x17, user);
      PutOptional(0x18, password, tlvs);
      tlvs := tlvs + OptTlv(0x18, password);
      if user.Some? && password.Some? {
        PutByte(0x16, Octet(auth), tlvs);
      }
      assert tlvs + [] == tlvs;
      tlvs := tlvs + OptTlv(0x16, AuthOf(p));
      PutByte(0x19, Octet(profile.ipFamily), tlvs);
      tlvs := tlvs + [Tlv(0x19, [Octet(profile.ipFamily)])];
      assert tlvs + [] == tlvs;
      if profile.pdp != 0 && !cdma {
        PutByte(0x31, Octet(profile.pdp), tlvs);
      }
    }

    /** `WdsModifyProfileSettingsReq`: the first TLV is part of the fixed structure. */
    method PutModify(p: Profile)
      requires start == TLVS && tlvLength == 0 && buf.Length == BUFFER && ModifyFits(p)
      modifies buf, `tlvLength
      ensures Wrote(ModifyTlvs(p))
    {
      hide Encode, Wrote;
      ModifySize(p);
      WroteNothing();
      PutPair(0x01, 0, Octet(p.pdp));
      ghost var tlvs := [Tlv(0x01, [0, Octet(p.pdp)])];
      PutByte(0x11, Octet(p.ipType), tlvs);
      tlvs := tlvs + [Tlv(0x11, [Octet(p.ipType)])];
      PutOptional(0x14, p.apn, tlvs);
      tlvs := tlvs + OptTlv(0x14, p.apn);
      PutOptional(0x1B, p.user, tlvs);
      tlvs := tlvs + OptTlv(0x1B, p.user);
      PutOptional(0x1C, p.password, tlvs);
      tlvs := tlvs + OptTlv(0x1C, p.password);
      assert tlvs + [] == tlvs;
      if p.user.Some? && p.password.Some? {
        PutByte(0x1D, Octet(p.auth), tlvs);
      }
    }

    method PutPair(kind: byte, v: byte, w: byte)
      requires tlvLength == 0 && start + 5 <= buf.Length
      modifies buf, `tlvLength
      ensures Wrote([Tlv(kind, [v, w])]) && tlvLength == 5 && buf[..start] == old(buf[..start])
    {
      hide Le16;
      ghost var before := buf[..];
      PutHeader(kind, 2);
      buf[start + tlvLength + 3] := v;
      buf[start + tlvLength + 4] := w;
      tlvLength := tlvLength + 5;
      Extended(before, buf[..], start, start, [], Tlv(kind, [v, w]));
      assert [] + [Tlv(kind, [v, w])] == [Tlv(kind, [v, w])];
    }

    lemma WroteNothing()
      requires tlvLength == 0 && start <= buf.Length
      ensures Wrote([])
    {
    }
  }

  function Room(s: Option<seq<byte>>): nat {
    if s.Some? then 3 + |s.value| else 0
  }

  lemma OptSize(tlvs: seq<Tlv>, kind: byte, s: Option<seq<byte>>)
    ensures |Encode(tlvs + OptTlv(kind, s))| == |Encode(tlvs)| + Room(s)
  {
    hide Encode;
    if s.Some? {
      EncodeAppend(tlvs, [Tlv(kind, s.value)]);
      EncodeOne(Tlv(kind, s.value));
    } else {
      assert tlvs + [] == tlvs;
    }
  }

  lemma StartSize(profile: Profile, cdma: bool)
    ensures var p := Credentials(profile, cdma);
      |Encode(StartTlvs(profile, cdma))| ==
      4 + Room(if cdma then None else p.apn) + Room(p.user) + Room(p.password) + Room(AuthOf(p)) + 4 +
      Room(if p.pdp != 0 && !cdma then Some([Octet(p.pdp)]) else None)
  {
    hide Encode;
    var p := Credentials(profile, cdma);
    var tlvs := [Tlv(0x30, [if cdma then 2 else 1])];
    EncodeOne(tlvs[0]);
    OptSize(tlvs, 0x14, if cdma then None else p.apn);
    tlvs := tlvs + OptTlv(0x14, if cdma then None else p.apn);
    OptSize(tlvs, 0x17, p.user);
    tlvs := tlvs + OptTlv(0x17, p.user);
    OptSize(tlvs, 0x18, p.password);
    tlvs := tlvs + OptTlv(0x18, p.password);
    OptSize(tlvs, 0x16, AuthOf(p));
    tlvs := tlvs + OptTlv(0x16, AuthOf(p));
    OptSize(tlvs, 0x19, Some([Octet(p.ipFamily)]));
    tlvs := tlvs + [Tlv(0x19, [Octet(p.ipFamily)])];
    OptSize(tlvs, 0x31, if p.pdp != 0 && !cdma then Some([Octet(p.pdp)]) else None);
  }

  lemma ModifySize(p: Profile)
    ensures |Encode(ModifyTlvs(p))| == 9 + Room(p.apn) + Room(p.user) + Room(p.password) + Room(AuthOf(p))
  {
    hide Encode;
    var tlvs := [Tlv(0x01, [0, Octet(p.pdp)])];
    EncodeOne(tlvs[0]);
    OptSize(tlvs, 0x11, Some([Octet(p.ipType)]));
    tlvs := tlvs + [Tlv(0x11, [Octet(p.ipType)])];
    OptSize(tlvs, 0x14, p.apn);
    tlvs := tlvs + OptTlv(0x14, p.apn);
    OptSize(tlvs, 0x1B, p.user);
    tlvs := tlvs + OptTlv(0x1B, p.user);
    OptSize(tlvs, 0x1C, p.password);
    tlvs := tlvs + OptTlv(0x1C, p.password);
    OptSize(tlvs, 0x1D, AuthOf(p));
  }

  lemma Extended(before: seq<byte>, after: seq<byte>, start: nat, p: nat, tlvs: seq<Tlv>, t: Tlv)
    requires start <= p <= |before| && before[start..p] == Encode(tlvs)
    requires p + 3 + |t.value| <= |after|
    requires after[..p + 3 + |t.value|] == before[..p] + ([t.kind] + Le16(|t.value|)) + t.value
    ensures var n := |Encode(tlvs + [t])|;
      n == p - start + 3 + |t.value| && start + n <= |after| && after[start..start + n] == Encode(tlvs + [t])
    ensures after[..start] == before[..start]
  {
    hide Encode;
    EncodeAppend(tlvs, [t]);
    EncodeOne(t);
    var q := p + 3 + |t.value|;
    assert after[..q] == before[..p] + EncodeTlv(t);
    assert after[start..q] == after[..q][start..];
    assert after[..start] == after[..q][..start];
    assert before[start..p] == before[..p][start..];
  }

  /** The bytes in front of the TLVs. */
  method PutHeaders(buf: array<byte>, qmiType: byte, tid: nat, msgType: nat, length: nat)
    requires buf.Length == BUFFER && TLVS + length <= BUFFER
    modifies buf
    ensures buf[..TLVS] == Headers(qmiType, tid, msgType, length)
    ensures buf[TLVS..] == old(buf[TLVS..])
  {
    buf[0] := 1;
    buf[1] := Octet(length + TLVS - 1);
    buf[2] := Octet((length + TLVS - 1) / 256);
    buf[3] := 0;
    buf[4] := qmiType;
    buf[5] := 0;
    buf[6] := 0;
    buf[7] := Octet(tid);
    buf[8] := Octet(tid / 256);
    buf[9] := Octet(msgType);
    buf[10] := Octet(msgType / 256);
    buf[11] := Octet(length);
    buf[12] := Octet(length / 256);
    hide Octet;
  }

  /** Which function fills in the TLVs. */
  datatype Custom = NoTlvs | StartNwInterface(profile: Profile, cdma: bool) | ModifyProfile(settings: Profile)

  function TlvsOf(c: Custom): seq<Tlv> {
    match c
    case NoTlvs => []
    case StartNwInterface(p, cdma) => StartTlvs(p, cdma)
    case ModifyProfile(p) => ModifyTlvs(p)
  }

  ghost predicate Fits(c: Custom) {
    match c
    case NoTlvs => true
    case StartNwInterface(p, cdma) => StartFits(p, cdma)
    case ModifyProfile(p) => ModifyFits(p)
  }

  /** `ComposeQMUXMsg`: both length fields agree with what was written, and exactly that is handed out. */
  method ComposeQMUXMsg(qmiType: byte, tid: nat, msgType: nat, custom: Custom) returns (request: array<byte>)
    requires Fits(custom)
    ensures fresh(request) && request[..] == Message(qmiType, tid, msgType, TlvsOf(custom))
    ensures Announces(request[..], qmiType, tid, msgType)
  {
    hide Encode, StartTlvs, ModifyTlvs, Le16, Announces, Headers, FromLe16;
    TlvsFit(custom);
    HeaderReadsBack(qmiType, tid, msgType, TlvsOf(custom));
    var composer := new Composer(TLVS);
    composer.WroteNothing();
    EncodeOne(Tlv(0, []));
    match custom {
      case NoTlvs =>
      case StartNwInterface(p, cdma) => composer.PutStart(p, cdma);
      case ModifyProfile(p) => composer.PutModify(p);
    }
    var buf := composer.buf;
    var n := composer.tlvLength;
    ghost var tlvs := TlvsOf(custom);
    assert composer.Wrote(tlvs);
    assert buf[TLVS..TLVS + n] == Encode(tlvs);
    ghost var written := buf[TLVS..];
    assert written[..n] == buf[TLVS..TLVS + n];
    PutHeaders(buf, qmiType, tid, msgType, n);
    HeadersTellLength(qmiType, tid, msgType, n);
    assert buf[..TLVS][1] == buf[1] && buf[..TLVS][2] == buf[2];
    var length := FromLe16(buf[1], buf[2]) + 1;
    assert buf[TLVS..] == written;
    assert buf[..length] == buf[..TLVS] + buf[TLVS..][..n];
    request := CopyOut(buf, length);
  }

  lemma TlvsFit(custom: Custom)
    requires Fits(custom)
    ensures TLVS + |Encode(TlvsOf(custom))| <= BUFFER
  {
    hide Encode, StartTlvs, ModifyTlvs;
    EncodeOne(Tlv(0, []));
  }

  /** The headers of a message, byte by byte: the interface type, the length of what follows it, the
      service, the transaction id, the type of the message and the length of its TLVs. Numbers stand with
      the low byte first; the flags and the client id, which the send fills in, are 0. */
  ghost predicate Announces(s: seq<byte>, qmiType: byte, tid: nat, msgType: nat) {
    |s| >= 13 &&
    s[0] == 1 &&
    s[1] as nat + 256 * s[2] as nat == |s| - 1 &&
    s[3] == 0 &&
    s[4] == qmiType &&
    s[5] == 0 &&
    s[6] == 0 &&
    s[7] as nat + 256 * s[8] as nat == tid % 65536 &&
    s[9] as nat + 256 * s[10] as nat == msgType % 65536 &&
    s[11] as nat + 256 * s[12] as nat == |s| - 13
  }

  lemma LowByteFirst(n: nat)
    ensures Le16(n)[0] as nat + 256 * Le16(n)[1] as nat == n % 65536
  {
  }

  lemma HeaderBytes(qmiType: byte, tid: nat, msgType: nat, n: nat)
    ensures var h := Headers(qmiType, tid, msgType, n);
      h[0] == 1 && h[1] == Le16(n + 12)[0] && h[2] == Le16(n + 12)[1] &&
      h[3] == 0 && h[4] == qmiType && h[5] == 0 && h[6] == 0 &&
      h[7] == Le16(tid)[0] && h[8] == Le16(tid)[1] && h[9] == Le16(msgType)[0] && h[10] == Le16(msgType)[1] &&
      h[11] == Le16(n)[0] && h[12] == Le16(n)[1]
  {
    hide Le16;
  }

  lemma HeaderReadsBack(qmiType: byte, tid: nat, msgType: nat, tlvs: seq<Tlv>)
    requires TLVS + |Encode(tlvs)| <= BUFFER
    ensures Announces(Message(qmiType, tid, msgType, tlvs), qmiType, tid, msgType)
  {
    hide Encode, Le16, Headers, Message;
    var n, s := |Encode(tlvs)|, Message(qmiType, tid, msgType, tlvs);
    HeaderBytes(qmiType, tid, msgType, n);
    MessageBegins(qmiType, tid, msgType, tlvs);
    LowByteFirst(n + 12);
    LowByteFirst(tid);
    LowByteFirst(msgType);
    LowByteFirst(n);
  }

  lemma MessageBegins(qmiType: byte, tid: nat, msgType: nat, tlvs: seq<Tlv>)
    ensures forall i :: 0 <= i < 13 ==>
              Message(qmiType, tid, msgType, tlvs)[i] == Headers(qmiType, tid, msgType, |Encode(tlvs)|)[i]
  {
    hide Encode, Headers;
  }

  /** Behind the headers the TLVs follow one another: each its kind, its length with the low byte first,
      and its value. */
  lemma TlvBytes(qmiType: byte, tid: nat, msgType: nat, tlvs: seq<Tlv>, k: nat)
    requires TLVS + |Encode(tlvs)| <= BUFFER && k < |tlvs|
    ensures var s, p, t := Message(qmiType, tid, msgType, tlvs), 13 + Extent(tlvs[..k]), tlvs[k];
      p + 3 + |t.value| <= |s| && s[p] == t.kind &&
      s[p + 1] as nat + 256 * s[p + 2] as nat == |t.value| && s[p + 3..p + 3 + |t.value|] == t.value
    ensures |Message(qmiType, tid, msgType, tlvs)| == 13 + Extent(tlvs)
  {
    hide Encode, Le16, Message;
    var s, t := Message(qmiType, tid, msgType, tlvs), tlvs[k];
    MessageEnds(qmiType, tid, msgType, tlvs);
    ExtentIs(tlvs[..k]);
    ExtentIs(tlvs);
    assert tlvs == tlvs[..k] + ([t] + tlvs[k + 1..]);
    EncodeAppend(tlvs[..k], [t] + tlvs[k + 1..]);
    EncodeAppend([t], tlvs[k + 1..]);
    EncodeOne(t);
    var p := 13 + Extent(tlvs[..k]);
    AtSplit(s, 13, Encode(tlvs[..k]), EncodeTlv(t) + Encode(tlvs[k + 1..]));
    AtSplit(s, p, EncodeTlv(t), Encode(tlvs[k + 1..]));
    OneTlv(s, p, t);
  }

  lemma MessageEnds(qmiType: byte, tid: nat, msgType: nat, tlvs: seq<Tlv>)
    ensures At(Message(qmiType, tid, msgType, tlvs), 13, Encode(tlvs))
    ensures |Message(qmiType, tid, msgType, tlvs)| == 13 + |Encode(tlvs)|
  {
  }

  lemma OneTlv(s: seq<byte>, p: nat, t: Tlv)
    requires At(s, p, EncodeTlv(t)) && |t.value| < 65536
    ensures p + 3 + |t.value| <= |s| && s[p] == t.kind
    ensures s[p + 1] as nat + 256 * s[p + 2] as nat == |t.value| && s[p + 3..p + 3 + |t.value|] == t.value
  {
    hide At, Le16;
    AtByte(s, p, EncodeTlv(t), 0);
    AtByte(s, p, EncodeTlv(t), 1);
    AtByte(s, p, EncodeTlv(t), 2);
    LowByteFirst(|t.value|);
    AtSplit(s, p, [t.kind] + Le16(|t.value|), t.value);
    AtSlice(s, p + 3, t.value);
  }

  lemma AtSlice(s: seq<byte>, p: nat, t: seq<byte>)
    requires At(s, p, t)
    ensures p + |t| <= |s| && s[p..p + |t|] == t
  {
  }

  function Extent(tlvs: seq<Tlv>): nat {
    if tlvs == [] then 0 else 3 + |tlvs[0].value| + Extent(tlvs[1..])
  }

  lemma {:induction false} ExtentIs(tlvs: seq<Tlv>)
    ensures Extent(tlvs) == |Encode(tlvs)|
  {
    if tlvs != [] {
      ExtentIs(tlvs[1..]);
    }
  }

  method CopyOut(buf: array<byte>, length: nat) returns (request: array<byte>)
    requires length <= buf.Length
    ensures fresh(request) && request[..] == buf[..length]
  {
    request := new byte[length];
    for i := 0 to length
      invariant request[..i] == buf[..i]
    {
      request[i] := buf[i];
    }
  }

  lemma HeadersTellLength(qmiType: byte, tid: nat, msgType: nat, n: nat)
    requires TLVS + n <= BUFFER
    ensures var h := Headers(qmiType, tid, msgType, n); FromLe16(h[1], h[2]) == n + TLVS - 1
  {
    hide Le16, FromLe16;
    Le16Reads(n + TLVS - 1);
  }

  lemma Le16Reads(n: nat)
    requires n < 65536
    ensures FromLe16(Le16(n)[0], Le16(n)[1]) == n
  {
  }

  // ---------------------------------------------------------------- reading

  /** Which TLV a request for `tlvType` means: above 0x1000 it counts, otherwise it is the first of the kind. */
  function Chosen(tlvs: seq<Tlv>, tlvType: nat): (k: nat)
    ensures k <= |tlvs|
    ensures tlvType > 0x1000 ==> k == (if tlvType - 0x1001 < |tlvs| then tlvType - 0x1001 else |tlvs|)
    ensures tlvType <= 0x1000 && k < |tlvs| ==> tlvs[k].kind as nat == tlvType
    ensures tlvType <= 0x1000 ==> forall j :: 0 <= j < k ==> tlvs[j].kind as nat != tlvType
  {
    if tlvs == [] then 0
    else if (if tlvType > 0x1000 then tlvType == 0x1001 else tlvs[0].kind as nat == tlvType) then 0
    else 1 + Chosen(tlvs[1..], if tlvType > 0x1000 then tlvType - 1 else tlvType)
  }

  /** A message header at `at` that announces these TLVs and is followed by them. */
  ghost predicate Holds(s: seq<byte>, at: nat, tlvs: seq<Tlv>) {
    |Encode(tlvs)| < 65536 && At(s, at + 2, Le16(|Encode(tlvs)|)) && At(s, at + 4, Encode(tlvs))
  }

  method GetTLV(buf: array<byte>, at: nat, tlvType: nat, ghost tlvs: seq<Tlv>) returns (r: Option<nat>)
    requires Holds(buf[..], at, tlvs)
    ensures r.None? <==> Chosen(tlvs, tlvType) == |tlvs|
    ensures r.Some? ==> var k := Chosen(tlvs, tlvType);
      r.value == at + 4 + |Encode(tlvs[..k])| && At(buf[..], r.value, EncodeTlv(tlvs[k]))
  {
    hide Encode, At, Le16, Chosen;
    ghost var s := buf[..];
    var found := 0;
    AtByte(s, at + 2, Le16(|Encode(tlvs)|), 0);
    AtByte(s, at + 2, Le16(|Encode(tlvs)|), 1);
    Le16Reads(|Encode(tlvs)|);
    var length := FromLe16(buf[at + 2], buf[at + 3]);
    var p := at + 4;
    EncodeOne(Tlv(0, []));
    assert tlvs[0..] == tlvs && tlvs[..0] == [];
    while length >= 3
      invariant found <= |tlvs| && found <= Chosen(tlvs, tlvType)
      invariant length == |Encode(tlvs[found..])| < 65536
      invariant p == at + 4 + |Encode(tlvs[..found])|
      invariant At(s, p, Encode(tlvs[found..]))
      decreases |tlvs| - found
    {
      ghost var k := found;
      NextTlv(s, p, tlvs, k);
      found := found + 1;
      if tlvType > 0x1000 {
        if found + 0x1000 == tlvType {
          return Some(p);
        }
      } else if buf[p] as nat == tlvType {
        return Some(p);
      }
      var n := FromLe16(buf[p + 1], buf[p + 2]);
      length := (length - (n + 3)) % 65536;
      p := p + n + 3;
    }
    ShortMeansEmpty(tlvs[found..]);
    return None;
  }

  lemma ShortMeansEmpty(tlvs: seq<Tlv>)
    ensures |Encode(tlvs)| < 3 <==> tlvs == []
  {
  }

  lemma NextTlv(s: seq<byte>, p: nat, tlvs: seq<Tlv>, k: nat)
    requires k <= |tlvs| && 3 <= |Encode(tlvs[k..])| < 65536 && At(s, p, Encode(tlvs[k..]))
    ensures k < |tlvs|
    ensures |Encode(tlvs[k..])| == 3 + |tlvs[k].value| + |Encode(tlvs[k + 1..])|
    ensures |Encode(tlvs[..k + 1])| == |Encode(tlvs[..k])| + 3 + |tlvs[k].value|
    ensures p + 2 < |s| && s[p] == tlvs[k].kind && FromLe16(s[p + 1], s[p + 2]) == |tlvs[k].value|
    ensures At(s, p, EncodeTlv(tlvs[k])) && At(s, p + 3 + |tlvs[k].value|, Encode(tlvs[k + 1..]))
  {
    hide Encode, At, Le16, EncodeTlv;
    ShortMeansEmpty(tlvs[k..]);
    EncodeOne(Tlv(0, []));
    var t := tlvs[k];
    assert tlvs[k..] == [t] + tlvs[k + 1..] && tlvs[..k + 1] == tlvs[..k] + [t];
    EncodeAppend([t], tlvs[k + 1..]);
    EncodeAppend(tlvs[..k], [t]);
    EncodeOne(t);
    AtSplit(s, p, EncodeTlv(t), Encode(tlvs[k + 1..]));
    ReadHeader(s, p, t);
  }

  lemma ReadHeader(s: seq<byte>, p: nat, t: Tlv)
    requires At(s, p, EncodeTlv(t)) && |t.value| < 65536
    ensures p + 2 < |s| && s[p] == t.kind && FromLe16(s[p + 1], s[p + 2]) == |t.value|
  {
    hide At, Le16;
    AtByte(s, p, EncodeTlv(t), 0);
    AtByte(s, p, EncodeTlv(t), 1);
    AtByte(s, p, EncodeTlv(t), 2);
    Le16Reads(|t.value|);
  }

  /** What was composed is a well-formed message for the reader. */
  lemma ComposedIsReadable(qmiType: byte, tid: nat, msgType: nat, tlvs: seq<Tlv>)
    requires TLVS + |Encode(tlvs)| <= BUFFER
    ensures Holds(Message(qmiType, tid, msgType, tlvs), MSG_HDR, tlvs)
  {
    hide Encode, Le16;
    var s, n := Message(qmiType, tid, msgType, tlvs), |Encode(tlvs)|;
    assert s[MSG_HDR + 2..MSG_HDR + 4] == Le16(n);
    assert s[MSG_HDR + 4..MSG_HDR + 4 + n] == Encode(tlvs);
  }

  // ---------------------------------------------------------------- composing and reading are inverse

  /** The value found for a kind of TLV, if there is one. */
  function Lookup(tlvs: seq<Tlv>, kind: nat): Option<seq<byte>>
    requires kind <= 0x1000
  {
    var k := Chosen(tlvs, kind);
    if k < |tlvs| then Some(tlvs[k].value) else None
  }

  /** What a start request says, kind by kind. */
  function StartField(profile: Profile, cdma: bool, kind: nat): Option<seq<byte>> {
    var p := Credentials(profile, cdma);
    if kind == 0x30 then Some([if cdma then 2 else 1])
    else if kind == 0x14 then (if cdma then None else p.apn)
    else if kind == 0x17 then p.user
    else if kind == 0x18 then p.password
    else if kind == 0x16 then (if p.user.Some? && p.password.Some? then Some([Octet(p.auth)]) else None)
    else if kind == 0x19 then Some([Octet(p.ipFamily)])
    else if kind == 0x31 then (if !cdma && p.pdp != 0 then Some([Octet(p.pdp)]) else None)
    else None
  }

  function ModifyField(p: Profile, kind: nat): Option<seq<byte>> {
    if kind == 0x01 then Some([0, Octet(p.pdp)])
    else if kind == 0x11 then Some([Octet(p.ipType)])
    else if kind == 0x14 then p.apn
    else if kind == 0x1B then p.user
    else if kind == 0x1C then p.password
    else if kind == 0x1D then (if p.user.Some? && p.password.Some? then Some([Octet(p.auth)]) else None)
    else None
  }

  lemma LookupStep(tlvs: seq<Tlv>, kind: nat)
    requires kind <= 0x1000
    ensures tlvs == [] ==> Lookup(tlvs, kind) == None
    ensures tlvs != [] ==>
              Lookup(tlvs, kind) == if tlvs[0].kind as nat == kind then Some(tlvs[0].value) else Lookup(tlvs[1..], kind)
  {
  }

  lemma {:induction false} ChosenAppend(a: seq<Tlv>, b: seq<Tlv>, kind: nat)
    requires kind <= 0x1000
    ensures Lookup(a + b, kind) == if Lookup(a, kind).Some? then Lookup(a, kind) else Lookup(b, kind)
  {
    hide Lookup, Chosen;
    LookupStep(a, kind);
    LookupStep(a + b, kind);
    if a == [] {
      assert a + b == b;
    } else {
      ChosenAppend(a[1..], b, kind);
      assert (a + b)[1..] == a[1..] + b && (a + b)[0] == a[0];
    }
  }

  lemma LookupOpt(tlvs: seq<Tlv>, k: byte, v: Option<seq<byte>>, kind: nat)
    requires kind <= 0x1000
    ensures Lookup(tlvs + OptTlv(k, v), kind) ==
            if Lookup(tlvs, kind).Some? then Lookup(tlvs, kind) else if kind == k as nat then v else None
  {
    ChosenAppend(tlvs, OptTlv(k, v), kind);
    if v.Some? {
      assert [Tlv(k, v.value)][1..] == [];
    }
  }

  /** Looking a kind up in a composed start request gives exactly the value that was to be written, and
      nothing for what was not. */
  lemma StartReadsBack(profile: Profile, cdma: bool, kind: nat)
    requires kind <= 0x1000
    ensures Lookup(StartTlvs(profile, cdma), kind) == StartField(profile, cdma, kind)
  {
    hide Lookup;
    var p := Credentials(profile, cdma);
    var apn := if cdma then None else p.apn;
    var pdp := if p.pdp != 0 && !cdma then Some([Octet(p.pdp)]) else None;
    var technology := Some([if cdma then 2 as byte else 1]);
    var family := Some([Octet(p.ipFamily)]);
    hide Credentials, Octet;
    NoneInNothing(kind);
    LookupOpt([], 0x30, technology, kind);
    var tlvs := [] + OptTlv(0x30, technology);
    LookupOpt(tlvs, 0x14, apn, kind);
    tlvs := tlvs + OptTlv(0x14, apn);
    LookupOpt(tlvs, 0x17, p.user, kind);
    tlvs := tlvs + OptTlv(0x17, p.user);
    LookupOpt(tlvs, 0x18, p.password, kind);
    tlvs := tlvs + OptTlv(0x18, p.password);
    LookupOpt(tlvs, 0x16, AuthOf(p), kind);
    tlvs := tlvs + OptTlv(0x16, AuthOf(p));
    LookupOpt(tlvs, 0x19, family, kind);
    tlvs := tlvs + OptTlv(0x19, family);
    LookupOpt(tlvs, 0x31, pdp, kind);
    tlvs := tlvs + OptTlv(0x31, pdp);
    assert [] + OptTlv(0x30, technology) == [Tlv(0x30, [if cdma then 2 else 1])];
    assert tlvs == StartTlvs(profile, cdma);
  }

  /** The kinds that a request carries, in the order in which they stand. */
  function Kinds(tlvs: seq<Tlv>): seq<nat> {
    seq(|tlvs|, i requires 0 <= i < |tlvs| => tlvs[i].kind as nat)
  }

  function If(present: bool, kind: nat): seq<nat> {
    if present then [kind] else []
  }

  lemma KindsAppend(a: seq<Tlv>, b: seq<Tlv>)
    ensures Kinds(a + b) == Kinds(a) + Kinds(b)
  {
  }

  lemma KindsOpt(tlvs: seq<Tlv>, kind: byte, v: Option<seq<byte>>)
    ensures Kinds(tlvs + OptTlv(kind, v)) == Kinds(tlvs) + If(v.Some?, kind as nat)
  {
    KindsAppend(tlvs, OptTlv(kind, v));
  }

  /** A start request carries the technology, then APN, user, password and authentication as far as there
      are any, the IP family, and the profile; on CDMA no APN and no profile. */
  lemma StartKinds(p: Profile, cdma: bool)
    ensures var c := Credentials(p, cdma);
      Kinds(StartTlvs(p, cdma)) ==
      [0x30] + If(!cdma && p.apn.Some?, 0x14) + If(c.user.Some?, 0x17) + If(c.password.Some?, 0x18) +
      If(c.user.Some? && c.password.Some?, 0x16) + [0x19] + If(!cdma && p.pdp != 0, 0x31)
  {
    hide Kinds, If, Octet;
    var c := Credentials(p, cdma);
    var tlvs := [Tlv(0x30, [if cdma then 2 else 1])];
    OneKind(tlvs[0]);
    KindsOpt(tlvs, 0x14, if cdma then None else c.apn);
    tlvs := tlvs + OptTlv(0x14, if cdma then None else c.apn);
    KindsOpt(tlvs, 0x17, c.user);
    tlvs := tlvs + OptTlv(0x17, c.user);
    KindsOpt(tlvs, 0x18, c.password);
    tlvs := tlvs + OptTlv(0x18, c.password);
    KindsOpt(tlvs, 0x16, AuthOf(c));
    tlvs := tlvs + OptTlv(0x16, AuthOf(c));
    OneKind(Tlv(0x19, [Octet(c.ipFamily)]));
    KindsAppend(tlvs, [Tlv(0x19, [Octet(c.ipFamily)])]);
    tlvs := tlvs + [Tlv(0x19, [Octet(c.ipFamily)])];
    KindsOpt(tlvs, 0x31, if c.pdp != 0 && !cdma then Some([Octet(c.pdp)]) else None);
  }

  lemma OneKind(t: Tlv)
    ensures Kinds([t]) == [t.kind as nat]
  {
  }

  /** A modify request carries the profile, the PDP type, and the others as far as there are any. */
  lemma ModifyKinds(p: Profile)
    ensures Kinds(ModifyTlvs(p)) ==
            [0x01] + [0x11] + If(p.apn.Some?, 0x14) + If(p.user.Some?, 0x1B) + If(p.password.Some?, 0x1C) +
            If(p.user.Some? && p.password.Some?, 0x1D)
  {
    hide Kinds, If, Octet;
    var tlvs := [Tlv(0x01, [0, Octet(p.pdp)])];
    OneKind(tlvs[0]);
    OneKind(Tlv(0x11, [Octet(p.ipType)]));
    KindsAppend(tlvs, [Tlv(0x11, [Octet(p.ipType)])]);
    tlvs := tlvs + [Tlv(0x11, [Octet(p.ipType)])];
    KindsOpt(tlvs, 0x14, p.apn);
    tlvs := tlvs + OptTlv(0x14, p.apn);
    KindsOpt(tlvs, 0x1B, p.user);
    tlvs := tlvs + OptTlv(0x1B, p.user);
    KindsOpt(tlvs, 0x1C, p.password);
    tlvs := tlvs + OptTlv(0x1C, p.password);
    KindsOpt(tlvs, 0x1D, AuthOf(p));
  }

  /** The operator's user, password and CHAP are used on CDMA networks exactly if the profile has neither
      a user nor a password; otherwise the profile's own are. */
  lemma CdmaCredentials(p: Profile, cdma: bool)
    ensures var own := !cdma || (p.user.Some? && p.user.value != []) || (p.password.Some? && p.password.value != []);
      var tlvs := StartTlvs(p, cdma);
      Lookup(tlvs, 0x17) == (if own then p.user else Some(Ascii("ctnet@mycdma.cn"))) &&
      Lookup(tlvs, 0x18) == (if own then p.password else Some(Ascii("vnet.mobi"))) &&
      (!own ==> Lookup(tlvs, 0x16) == Some([2])) &&
      (own && p.user.Some? && p.password.Some? ==> Lookup(tlvs, 0x16) == Some([(p.auth % 256) as byte])) &&
      (own && (p.user.None? || p.password.None?) ==> Lookup(tlvs, 0x16) == None)
  {
    hide Lookup, StartTlvs;
    StartReadsBack(p, cdma, 0x17);
    StartReadsBack(p, cdma, 0x18);
    StartReadsBack(p, cdma, 0x16);
    assert Ascii("ctnet@mycdma.cn") == CDMA_USER;
    assert Ascii("vnet.mobi") == CDMA_PASSWORD;
  }

  lemma NoneInNothing(kind: nat)
    requires kind <= 0x1000
    ensures Lookup([], kind) == None
  {
  }

  lemma ModifyReadsBack(p: Profile, kind: nat)
    requires kind <= 0x1000
    ensures Lookup(ModifyTlvs(p), kind) == ModifyField(p, kind)
  {
    hide Lookup, Octet;
    NoneInNothing(kind);
    var index, ipType := Some([0, Octet(p.pdp)]), Some([Octet(p.ipType)]);
    LookupOpt([], 0x01, index, kind);
    var tlvs := [] + OptTlv(0x01, index);
    LookupOpt(tlvs, 0x11, ipType, kind);
    tlvs := tlvs + OptTlv(0x11, ipType);
    LookupOpt(tlvs, 0x14, p.apn, kind);
    tlvs := tlvs + OptTlv(0x14, p.apn);
    LookupOpt(tlvs, 0x1B, p.user, kind);
    tlvs := tlvs + OptTlv(0x1B, p.user);
    LookupOpt(tlvs, 0x1C, p.password, kind);
    tlvs := tlvs + OptTlv(0x1C, p.password);
    LookupOpt(tlvs, 0x1D, AuthOf(p), kind);
    tlvs := tlvs + OptTlv(0x1D, AuthOf(p));
    assert [] + OptTlv(0x01, index) == [Tlv(0x01, [0, Octet(p.pdp)])];
    assert tlvs == ModifyTlvs(p);
  }
}
