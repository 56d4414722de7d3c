/**
 * The digest data model (src/metrics.rs) and the JSON shape that serde's
 * derived `Serialize`/`Deserialize` give it: camelCase member names, `Option`
 * fields written as `null` and read back from `null` or absence, and
 * `quality` flattened into the enclosing metrics object.
 *
 * JSON text is not modelled; `Json` is the already parsed tree.
 */
module Metrics {
  import opened Base

  /** An IEEE-754 double, kept as its bit pattern: nothing here does float arithmetic. */
  datatype F64 = F64(bits: U64)

  datatype Resolution = Resolution(height: U16, width: U16)

  /** Present or absent as a whole: both members or neither. */
  datatype Quality = Quality(framesPerSecond: U8, frameResolution: Resolution)

  /**
   * One media slot: ten independent optional counters and rates, a mandatory
   * timestamp, an optional quality. The counters are `usize` in the source;
   * they are modelled at 64 bits.
   */
  datatype Metrics = Metrics(
    jitter: Option<F64>,
    roundTripTime: Option<F64>,
    bytesSent: Option<U64>,
    bytesReceived: Option<U64>,
    packetsSent: Option<U64>,
    packetsReceived: Option<U64>,
    packetsLost: Option<U64>,
    headerBytesSent: Option<U64>,
    headerBytesReceived: Option<U64>,
    retransmittedBytesSent: Option<U64>,
    timestamp: F64,
    quality: Option<Quality>)

  /** Exactly two slots. */
  datatype Bundle = Bundle(audio: Metrics, video: Metrics)

  /** Exactly two bundles. */
  datatype Digest = Digest(roomId: U64, memberId: U64, outbound: Bundle, inbound: Bundle)

  // ---------------------------------------------------------------------------
  // Wire names

  /** Every field of the data model, by the struct that declares it. */
  datatype Field =
    | RoomId | MemberId | Outbound | Inbound
    | Audio | Video
    | Jitter | RoundTripTime | BytesSent | BytesReceived | PacketsSent | PacketsReceived
    | PacketsLost | HeaderBytesSent | HeaderBytesReceived | RetransmittedBytesSent | Timestamp
    | FramesPerSecond | FrameResolution
    | Height | Width

  /** The field's name in the Rust declaration. */
  function RustName(f: Field): string {
    match f
    case RoomId => "room_id"
    case MemberId => "member_id"
    case Outbound => "outbound"
    case Inbound => "inbound"
    case Audio => "audio"
    case Video => "video"
    case Jitter => "jitter"
    case RoundTripTime => "round_trip_time"
    case BytesSent => "bytes_sent"
    case BytesReceived => "bytes_received"
    case PacketsSent => "packets_sent"
    case PacketsReceived => "packets_received"
    case PacketsLost => "packets_lost"
    case HeaderBytesSent => "header_bytes_sent"
    case HeaderBytesReceived => "header_bytes_received"
    case RetransmittedBytesSent => "retransmitted_bytes_sent"
    case Timestamp => "timestamp"
    case FramesPerSecond => "frames_per_second"
    case FrameResolution => "frame_resolution"
    case Height => "height"
    case Width => "width"
  }

  /** The JSON key the field is written under and read from. */
  function WireKey(f: Field): string {
    match f
    case RoomId => "roomId"
    case MemberId => "memberId"
    case Outbound => "outbound"
    case Inbound => "inbound"
    case Audio => "audio"
    case Video => "video"
    case Jitter => "jitter"
    case RoundTripTime => "roundTripTime"
    case BytesSent => "bytesSent"
    case BytesReceived => "bytesReceived"
    case PacketsSent => "packetsSent"
    case PacketsReceived => "packetsReceived"
    case PacketsLost => "packetsLost"
    case HeaderBytesSent => "headerBytesSent"
    case HeaderBytesReceived => "headerBytesReceived"
    case RetransmittedBytesSent => "retransmittedBytesSent"
    case Timestamp => "timestamp"
    case FramesPerSecond => "framesPerSecond"
    case FrameResolution => "frameResolution"
    case Height => "height"
    case Width => "width"
  }

  /** The members of a metrics object that are always written, in declaration order. */
  const METRICS_LAYOUT: seq<Field> := [
    Jitter, RoundTripTime, BytesSent, BytesReceived, PacketsSent, PacketsReceived,
    PacketsLost, HeaderBytesSent, HeaderBytesReceived, RetransmittedBytesSent, Timestamp]

  /** The members a present quality adds to the metrics object it is flattened into. */
  const QUALITY_LAYOUT: seq<Field> := [FramesPerSecond, FrameResolution]

  function ToUpper(c: char): (u: char)
    ensures 'a' <= c <= 'z' ==> 'A' <= u <= 'Z'
    ensures !('a' <= c <= 'z') ==> u == c
  {
    if 'a' <= c <= 'z' then (c as int - 'a' as int + 'A' as int) as char else c
  }

  /**
   * serde's `rename_all = "camelCase"` applied to a snake_case field name:
   * every `_` is dropped and the character after it is upper-cased.
   */
  function CamelCase(s: string): string
    decreases |s|
  {
    if |s| == 0 then []
    else if s[0] == '_' then
      if |s| == 1 then [] else [ToUpper(s[1])] + CamelCase(s[2..])
    else [s[0]] + CamelCase(s[1..])
  }

  /**
   * Every wire key is the camel-cased Rust name. `Resolution` carries no
   * `rename_all`, and its keys are its field names unchanged.
   */
  lemma WireKeyIsCamelCase(f: Field)
    ensures WireKey(f) == CamelCase(RustName(f))
    ensures (f == Height || f == Width) ==> WireKey(f) == RustName(f)
  {
    if f.RoomId? || f.MemberId? || f.Outbound? || f.Inbound? || f.Audio? || f.Video? {
      DigestKeysAreCamelCase(f);
    } else if f.FramesPerSecond? || f.FrameResolution? || f.Height? || f.Width? {
      QualityKeysAreCamelCase(f);
    } else if f.Jitter? || f.RoundTripTime? || f.BytesSent? || f.BytesReceived? || f.PacketsSent? {
      MetricsKeysAreCamelCase(f);
    } else {
      MoreMetricsKeysAreCamelCase(f);
    }
  }

  lemma DigestKeysAreCamelCase(f: Field)
    requires f.RoomId? || f.MemberId? || f.Outbound? || f.Inbound? || f.Audio? || f.Video?
    ensures WireKey(f) == CamelCase(RustName(f))
  {
    match f
    case RoomId => CamelCaseRoomId();
    case MemberId => CamelCaseMemberId();
    case Outbound => CamelCaseKeeps("outbound");
    case Inbound => CamelCaseKeeps("inbound");
    case Audio => CamelCaseKeeps("audio");
    case Video => CamelCaseKeeps("video");
  }

  lemma QualityKeysAreCamelCase(f: Field)
    requires f.FramesPerSecond? || f.FrameResolution? || f.Height? || f.Width?
    ensures WireKey(f) == CamelCase(RustName(f))
  {
    match f
    case FramesPerSecond => CamelCaseFramesPerSecond();
    case FrameResolution => CamelCaseFrameResolution();
    case Height => CamelCaseKeeps("height");
    case Width => CamelCaseKeeps("width");
  }

  lemma MetricsKeysAreCamelCase(f: Field)
    requires f.Jitter? || f.RoundTripTime? || f.BytesSent? || f.BytesReceived? || f.PacketsSent?
    ensures WireKey(f) == CamelCase(RustName(f))
  {
    match f
    case Jitter => CamelCaseKeeps("jitter");
    case RoundTripTime => CamelCaseRoundTripTime();
    case BytesSent => CamelCaseBytesSent();
    case BytesReceived => CamelCaseBytesReceived();
    case PacketsSent => CamelCasePacketsSent();
  }

  lemma MoreMetricsKeysAreCamelCase(f: Field)
    requires f.PacketsReceived? || f.PacketsLost? || f.HeaderBytesSent? || f.HeaderBytesReceived?
          || f.RetransmittedBytesSent? || f.Timestamp?
    ensures WireKey(f) == CamelCase(RustName(f))
  {
    match f
    case PacketsReceived => CamelCasePacketsReceived();
    case PacketsLost => CamelCasePacketsLost();
    case HeaderBytesSent => CamelCaseHeaderBytesSent();
    case HeaderBytesReceived => CamelCaseHeaderBytesReceived();
    case RetransmittedBytesSent => CamelCaseRetransmittedBytesSent();
    case Timestamp => CamelCaseKeeps("timestamp");
  }

  /** A name without underscores is its own camel case. */
  lemma {:induction false} CamelCaseKeeps(s: string)
    requires '_' !in s
    ensures CamelCase(s) == s
    decreases |s|
  {
    if |s| > 0 {
      assert s[0] != '_';
      assert '_' !in s[1..];
      CamelCaseKeeps(s[1..]);
      assert s == [s[0]] + s[1..];
    }
  }

  /** Camel-casing `_b` upper-cases the first letter of `b`. */
  lemma CamelCaseUnderscore(b: string)
    requires |b| > 0
    ensures CamelCase("_" + b) == [ToUpper(b[0])] + CamelCase(b[1..])
  {
    var u := "_" + b;
    assert u[0] == '_' && u[1] == b[0];
    assert u[2..] == b[1..];
  }

  /** A prefix without underscores passes through camel-casing unchanged. */
  lemma {:induction false} CamelCasePrefix(a: string, u: string)
    requires '_' !in a
    ensures CamelCase(a + u) == a + CamelCase(u)
    decreases |a|
  {
    if |a| > 0 {
      var s := a + u;
      assert s[0] == a[0] && a[0] != '_';
      assert s[1..] == a[1..] + u;
      CamelCasePrefix(a[1..], u);
      assert a == [a[0]] + a[1..];
    } else {
      assert a + u == u;
    }
  }

  /** Camel-casing `a_x` keeps `a` and upper-cases the first letter of `x`. */
  lemma CamelCaseSplit(a: string, x: string)
    requires '_' !in a && |x| > 0
    ensures CamelCase(a + ("_" + x)) == a + ([ToUpper(x[0])] + CamelCase(x[1..]))
  {
    CamelCasePrefix(a, "_" + x);
    CamelCaseUnderscore(x);
  }

  /** Camel-casing `a_b`, for words without underscores: `a`, then `b` with its first letter upper-cased. */
  lemma CamelOne(a: string, b: string)
    requires '_' !in a && '_' !in b && |b| > 0
    ensures CamelCase(a + ("_" + b)) == a + ([ToUpper(b[0])] + b[1..])
  {
    CamelCaseSplit(a, b);
    assert '_' !in b[1..];
    CamelCaseKeeps(b[1..]);
  }

  /** Camel-casing `a_b_c`, for words without underscores. */
  lemma CamelTwo(a: string, b: string, c: string)
    requires '_' !in a && '_' !in b && '_' !in c && |b| > 0 && |c| > 0
    ensures CamelCase(a + ("_" + (b + ("_" + c)))) == a + ([ToUpper(b[0])] + (b[1..] + ([ToUpper(c[0])] + c[1..])))
  {
    var x := b + ("_" + c);
    CamelCaseSplit(a, x);
    assert x[0] == b[0];
    assert x[1..] == b[1..] + ("_" + c);
    assert '_' !in b[1..];
    CamelOne(b[1..], c);
  }

  lemma CamelCaseRoundTripTime()
    ensures CamelCase("round_trip_time") == "roundTripTime"
  {
    assert "round_trip_time" == "round" + ("_" + ("trip" + ("_" + "time")));
    assert ToUpper('t') == 'T';
    assert "trip"[0] == 't' && "trip"[1..] == "rip";
    assert "time"[0] == 't' && "time"[1..] == "ime";
    assert "round" + (['T'] + ("rip" + (['T'] + "ime"))) == "roundTripTime";
    CamelTwo("round", "trip", "time");
  }

  lemma CamelCaseBytesSent()
    ensures CamelCase("bytes_sent") == "bytesSent"
  {
    assert "bytes_sent" == "bytes" + ("_" + "sent");
    assert ToUpper('s') == 'S';
    assert "sent"[0] == 's' && "sent"[1..] == "ent";
    assert "bytes" + (['S'] + "ent") == "bytesSent";
    CamelOne("bytes", "sent");
  }

  lemma CamelCaseBytesReceived()
    ensures CamelCase("bytes_received") == "bytesReceived"
  {
    assert "bytes_received" == "bytes" + ("_" + "received");
    assert ToUpper('r') == 'R';
    assert "received"[0] == 'r' && "received"[1..] == "eceived";
    assert "bytes" + (['R'] + "eceived") == "bytesReceived";
    CamelOne("bytes", "received");
  }

  lemma CamelCasePacketsSent()
    ensures CamelCase("packets_sent") == "packetsSent"
  {
    assert "packets_sent" == "packets" + ("_" + "sent");
    assert ToUpper('s') == 'S';
    assert "sent"[0] == 's' && "sent"[1..] == "ent";
    assert "packets" + (['S'] + "ent") == "packetsSent";
    CamelOne("packets", "sent");
  }

  lemma CamelCasePacketsReceived()
    ensures CamelCase("packets_received") == "packetsReceived"
  {
    assert "packets_received" == "packets" + ("_" + "received");
    assert ToUpper('r') == 'R';
    assert "received"[0] == 'r' && "received"[1..] == "eceived";
    assert "packets" + (['R'] + "eceived") == "packetsReceived";
    CamelOne("packets", "received");
  }

  lemma CamelCasePacketsLost()
    ensures CamelCase("packets_lost") == "packetsLost"
  {
    assert "packets_lost" == "packets" + ("_" + "lost");
    assert ToUpper('l') == 'L';
    assert "lost"[0] == 'l' && "lost"[1..] == "ost";
    assert "packets" + (['L'] + "ost") == "packetsLost";
    CamelOne("packets", "lost");
  }

  lemma CamelCaseHeaderBytesSent()
    ensures CamelCase("header_bytes_sent") == "headerBytesSent"
  {
    assert "header_bytes_sent" == "header" + ("_" + ("bytes" + ("_" + "sent")));
    assert ToUpper('b') == 'B' && ToUpper('s') == 'S';
    assert "bytes"[0] == 'b' && "bytes"[1..] == "ytes";
    assert "sent"[0] == 's' && "sent"[1..] == "ent";
    assert "header" + (['B'] + ("ytes" + (['S'] + "ent"))) == "headerBytesSent";
    CamelTwo("header", "bytes", "sent");
  }

  lemma CamelCaseHeaderBytesReceived()
    ensures CamelCase("header_bytes_received") == "headerBytesReceived"
  {
    assert "header_bytes_received" == "header" + ("_" + ("bytes" + ("_" + "received")));
    assert ToUpper('b') == 'B' && ToUpper('r') == 'R';
    assert "bytes"[0] == 'b' && "bytes"[1..] == "ytes";
    assert "received"[0] == 'r' && "received"[1..] == "eceived";
    assert "header" + (['B'] + ("ytes" + (['R'] + "eceived"))) == "headerBytesReceived";
    CamelTwo("header", "bytes", "received");
  }

  lemma CamelCaseRetransmittedBytesSent()
    ensures CamelCase("retransmitted_bytes_sent") == "retransmittedBytesSent"
  {
    assert "retransmitted_bytes_sent" == "retransmitted" + ("_" + ("bytes" + ("_" + "sent")));
    assert ToUpper('b') == 'B' && ToUpper('s') == 'S';
    assert "bytes"[0] == 'b' && "bytes"[1..] == "ytes";
    assert "sent"[0] == 's' && "sent"[1..] == "ent";
    assert "retransmitted" + (['B'] + ("ytes" + (['S'] + "ent"))) == "retransmittedBytesSent";
    CamelTwo("retransmitted", "bytes", "sent");
  }

  lemma CamelCaseRoomId()
    ensures CamelCase("room_id") == "roomId"
  {
    assert "room_id" == "room" + ("_" + "id");
    assert ToUpper('i') == 'I';
    assert "id"[0] == 'i' && "id"[1..] == "d";
    assert "room" + (['I'] + "d") == "roomId";
    CamelOne("room", "id");
  }

  lemma CamelCaseMemberId()
    ensures CamelCase("member_id") == "memberId"
  {
    assert "member_id" == "member" + ("_" + "id");
    assert ToUpper('i') == 'I';
    assert "id"[0] == 'i' && "id"[1..] == "d";
    assert "member" + (['I'] + "d") == "memberId";
    CamelOne("member", "id");
  }

  lemma CamelCaseFramesPerSecond()
    ensures CamelCase("frames_per_second") == "framesPerSecond"
  {
    assert "frames_per_second" == "frames" + ("_" + ("per" + ("_" + "second")));
    assert ToUpper('p') == 'P' && ToUpper('s') == 'S';
    assert "per"[0] == 'p' && "per"[1..] == "er";
    assert "second"[0] == 's' && "second"[1..] == "econd";
    assert "frames" + (['P'] + ("er" + (['S'] + "econd"))) == "framesPerSecond";
    CamelTwo("frames", "per", "second");
  }

  lemma CamelCaseFrameResolution()
    ensures CamelCase("frame_resolution") == "frameResolution"
  {
    assert "frame_resolution" == "frame" + ("_" + "resolution");
    assert ToUpper('r') == 'R';
    assert "resolution"[0] == 'r' && "resolution"[1..] == "esolution";
    assert "frame" + (['R'] + "esolution") == "frameResolution";
    CamelOne("frame", "resolution");
  }

  // ---------------------------------------------------------------------------
  // JSON tree

  /**
   * A parsed JSON value. Numbers written without a fraction or exponent are
   * `JNumber`; the others are `JFloat`, kept as their 64-bit pattern.
   */
  datatype Json =
    | JNull
    | JBool(b: bool)
    | JNumber(n: int)
    | JFloat(f: F64)
    | JString(s: string)
    | JArray(items: seq<Json>)
    | JObject(members: seq<Member>)

  datatype Member = Member(key: string, value: Json)

  datatype DecodeError = MissingField(name: string) | InvalidType(name: string)

  /** The value of the first member named `key`, if any. */
  function Get(members: seq<Member>, key: string): Option<Json> {
    if |members| == 0 then None
    else if members[0].key == key then Some(members[0].value)
    else Get(members[1..], key)
  }

  /** `Get` finds the member at `i` when no earlier member has the same key. */
  lemma {:induction false} GetFirst(members: seq<Member>, i: nat)
    requires i < |members|
    requires forall j :: 0 <= j < i ==> members[j].key != members[i].key
    ensures Get(members, members[i].key) == Some(members[i].value)
  {
    if i > 0 {
      assert members[1..][i - 1] == members[i];
      GetFirst(members[1..], i - 1);
    }
  }

  /** The members carry, in order, the wire keys of `fields`. */
  predicate HasLayout(members: seq<Member>, fields: seq<Field>) {
    |members| == |fields| && forall i :: 0 <= i < |members| ==> members[i].key == WireKey(fields[i])
  }

  function OptU64ToJson(v: Option<U64>): Json {
    if v.Some? then JNumber(v.value) else JNull
  }

  function OptF64ToJson(v: Option<F64>): Json {
    if v.Some? then JFloat(v.value) else JNull
  }

  function EncodeResolution(r: Resolution): Json {
    JObject([Member(WireKey(Height), JNumber(r.height)), Member(WireKey(Width), JNumber(r.width))])
  }

  /** serde's flattening of `Option<Quality>`: the quality's two members, or nothing. */
  function QualityMembers(q: Option<Quality>): seq<Member> {
    if q.Some? then
      [Member(WireKey(FramesPerSecond), JNumber(q.value.framesPerSecond)),
       Member(WireKey(FrameResolution), EncodeResolution(q.value.frameResolution))]
    else []
  }

  /** The members written for every metrics object: `None` becomes `null`. */
  function FixedMembers(m: Metrics): seq<Member> {
    [Member(WireKey(Jitter), OptF64ToJson(m.jitter)),
     Member(WireKey(RoundTripTime), OptF64ToJson(m.roundTripTime)),
     Member(WireKey(BytesSent), OptU64ToJson(m.bytesSent)),
     Member(WireKey(BytesReceived), OptU64ToJson(m.bytesReceived)),
     Member(WireKey(PacketsSent), OptU64ToJson(m.packetsSent)),
     Member(WireKey(PacketsReceived), OptU64ToJson(m.packetsReceived)),
     Member(WireKey(PacketsLost), OptU64ToJson(m.packetsLost)),
     Member(WireKey(HeaderBytesSent), OptU64ToJson(m.headerBytesSent)),
     Member(WireKey(HeaderBytesReceived), OptU64ToJson(m.headerBytesReceived)),
     Member(WireKey(RetransmittedBytesSent), OptU64ToJson(m.retransmittedBytesSent)),
     Member(WireKey(Timestamp), JFloat(m.timestamp))]
  }

  function EncodeMetrics(m: Metrics): Json {
    JObject(FixedMembers(m) + QualityMembers(m.quality))
  }

  function EncodeBundle(b: Bundle): Json {
    JObject([Member(WireKey(Audio), EncodeMetrics(b.audio)), Member(WireKey(Video), EncodeMetrics(b.video))])
  }

  /** The JSON tree serde writes for a digest (what the console sink pretty-prints). */
  function EncodeDigest(d: Digest): Json {
    JObject([
      Member(WireKey(RoomId), JNumber(d.roomId)),
      Member(WireKey(MemberId), JNumber(d.memberId)),
      Member(WireKey(Outbound), EncodeBundle(d.outbound)),
      Member(WireKey(Inbound), EncodeBundle(d.inbound))])
  }

  // Decoding. Each reader rejects a value of the wrong type or range; the
  // readers of required fields also reject absence, the readers of optional
  // fields accept absence and `null` as `None`. An `f64` field also takes an
  // integer, converted by `asF64`: serde_json's `as f64`, a float rounding
  // that is passed in. Members with other keys are ignored.

  function ReadOptU64(members: seq<Member>, f: Field): Result<Option<U64>, DecodeError> {
    match Get(members, WireKey(f))
    case None => Ok(None)
    case Some(JNull) => Ok(None)
    case Some(JNumber(n)) => if 0 <= n < TWO_64 then Ok(Some(n)) else Err(InvalidType(WireKey(f)))
    case Some(_) => Err(InvalidType(WireKey(f)))
  }

  function ReadOptF64(members: seq<Member>, f: Field, asF64: int -> F64): Result<Option<F64>, DecodeError> {
    match Get(members, WireKey(f))
    case None => Ok(None)
    case Some(JNull) => Ok(None)
    case Some(JFloat(x)) => Ok(Some(x))
    case Some(JNumber(n)) => Ok(Some(asF64(n)))
    case Some(_) => Err(InvalidType(WireKey(f)))
  }

  function ReadF64(members: seq<Member>, f: Field, asF64: int -> F64): Result<F64, DecodeError> {
    match Get(members, WireKey(f))
    case None => Err(MissingField(WireKey(f)))
    case Some(JFloat(x)) => Ok(x)
    case Some(JNumber(n)) => Ok(asF64(n))
    case Some(_) => Err(InvalidType(WireKey(f)))
  }

  function ReadU64(members: seq<Member>, f: Field): Result<U64, DecodeError> {
    match Get(members, WireKey(f))
    case None => Err(MissingField(WireKey(f)))
    case Some(JNumber(n)) => if 0 <= n < TWO_64 then Ok(n) else Err(InvalidType(WireKey(f)))
    case Some(_) => Err(InvalidType(WireKey(f)))
  }

  /** A `u16` member of a resolution object. */
  function ReadU16(members: seq<Member>, f: Field): Option<U16> {
    var v := Get(members, WireKey(f));
    if v.Some? && v.value.JNumber? && 0 <= v.value.n < TWO_16 then Some(v.value.n) else None
  }

  function ReadResolution(j: Json): Option<Resolution> {
    if !j.JObject? then None else
    var h := ReadU16(j.members, Height);
    var w := ReadU16(j.members, Width);
    if h.Some? && w.Some? then Some(Resolution(h.value, w.value)) else None
  }

  /**
   * A flattened `Option<Quality>`: `Some` when both members are present and
   * well-typed, otherwise `None`. serde reads a flattened optional struct
   * that fails to deserialize as `None`; it does not reject the enclosing
   * object.
   */
  function ReadQuality(members: seq<Member>): Option<Quality> {
    var fps := Get(members, WireKey(FramesPerSecond));
    var res := Get(members, WireKey(FrameResolution));
    if fps.Some? && fps.value.JNumber? && 0 <= fps.value.n < TWO_8 && res.Some? then
      var r := ReadResolution(res.value);
      if r.Some? then Some(Quality(fps.value.n, r.value)) else None
    else None
  }

  function DecodeMetrics(j: Json, asF64: int -> F64): Result<Metrics, DecodeError> {
    if !j.JObject? then Err(InvalidType("Metrics")) else
    var ms := j.members;
    var jitter := ReadOptF64(ms, Jitter, asF64);
    var rtt := ReadOptF64(ms, RoundTripTime, asF64);
    var bs := ReadOptU64(ms, BytesSent);
    var br := ReadOptU64(ms, BytesReceived);
    var ps := ReadOptU64(ms, PacketsSent);
    var pr := ReadOptU64(ms, PacketsReceived);
    var pl := ReadOptU64(ms, PacketsLost);
    var hs := ReadOptU64(ms, HeaderBytesSent);
    var hr := ReadOptU64(ms, HeaderBytesReceived);
    var rs := ReadOptU64(ms, RetransmittedBytesSent);
    var ts := ReadF64(ms, Timestamp, asF64);
    if jitter.Err? then Err(jitter.error)
    else if rtt.Err? then Err(rtt.error)
    else if bs.Err? then Err(bs.error)
    else if br.Err? then Err(br.error)
    else if ps.Err? then Err(ps.error)
    else if pr.Err? then Err(pr.error)
    else if pl.Err? then Err(pl.error)
    else if hs.Err? then Err(hs.error)
    else if hr.Err? then Err(hr.error)
    else if rs.Err? then Err(rs.error)
    else if ts.Err? then Err(ts.error)
    else Ok(Metrics(jitter.value, rtt.value, bs.value, br.value, ps.value, pr.value,
                    pl.value, hs.value, hr.value, rs.value, ts.value, ReadQuality(ms)))
  }

  function DecodeBundle(j: Json, asF64: int -> F64): Result<Bundle, DecodeError> {
    if !j.JObject? then Err(InvalidType("Bundle")) else
    var a := Get(j.members, WireKey(Audio));
    var v := Get(j.members, WireKey(Video));
    if a.None? then Err(MissingField(WireKey(Audio)))
    else if v.None? then Err(MissingField(WireKey(Video)))
    else
      var audio := DecodeMetrics(a.value, asF64);
      var video := DecodeMetrics(v.value, asF64);
      if audio.Err? then Err(audio.error)
      else if video.Err? then Err(video.error)
      else Ok(Bundle(audio.value, video.value))
  }

  /** serde_json's `from_str::<Digest>`, once the text has been parsed into a tree. */
  function DecodeDigest(j: Json, asF64: int -> F64): Result<Digest, DecodeError> {
    if !j.JObject? then Err(InvalidType("Digest")) else
    var room := ReadU64(j.members, RoomId);
    var member := ReadU64(j.members, MemberId);
    var o := Get(j.members, WireKey(Outbound));
    var i := Get(j.members, WireKey(Inbound));
    if room.Err? then Err(room.error)
    else if member.Err? then Err(member.error)
    else if o.None? then Err(MissingField(WireKey(Outbound)))
    else if i.None? then Err(MissingField(WireKey(Inbound)))
    else
      var outbound := DecodeBundle(o.value, asF64);
      var inbound := DecodeBundle(i.value, asF64);
      if outbound.Err? then Err(outbound.error)
      else if inbound.Err? then Err(inbound.error)
      else Ok(Digest(room.value, member.value, outbound.value, inbound.value))
  }

  // ---------------------------------------------------------------------------
  // Properties

  /** The keys of a metrics object: the eleven fixed ones, then the flattened quality's two. */
  lemma MetricsKeysLayout(m: Metrics)
    ensures HasLayout(EncodeMetrics(m).members,
                      METRICS_LAYOUT + (if m.quality.Some? then QUALITY_LAYOUT else []))
  {
  }

  /** No two keys of an encoded metrics object are equal. */
  lemma MetricsKeysDistinct()
    ensures forall i, j :: 0 <= i < j < |METRICS_LAYOUT + QUALITY_LAYOUT| ==>
      WireKey((METRICS_LAYOUT + QUALITY_LAYOUT)[i]) != WireKey((METRICS_LAYOUT + QUALITY_LAYOUT)[j])
  {
  }

  /** Every member of an encoded metrics object is found again under its own key. */
  lemma {:induction false} EncodedMetricsLookup(m: Metrics, i: nat)
    requires i < |EncodeMetrics(m).members|
    ensures Get(EncodeMetrics(m).members, EncodeMetrics(m).members[i].key) == Some(EncodeMetrics(m).members[i].value)
  {
    var ms := EncodeMetrics(m).members;
    var fs := METRICS_LAYOUT + (if m.quality.Some? then QUALITY_LAYOUT else []);
    MetricsKeysLayout(m);
    MetricsKeysDistinct();
    assert forall k :: 0 <= k < |ms| ==> ms[k].key == WireKey(fs[k]);
    assert forall k :: 0 <= k < |fs| ==> fs[k] == (METRICS_LAYOUT + QUALITY_LAYOUT)[k];
    GetFirst(ms, i);
  }

  lemma ReadBackOptU64(ms: seq<Member>, f: Field, v: Option<U64>)
    requires Get(ms, WireKey(f)) == Some(OptU64ToJson(v))
    ensures ReadOptU64(ms, f) == Ok(v)
  {
  }

  lemma ReadBackOptF64(ms: seq<Member>, f: Field, v: Option<F64>, asF64: int -> F64)
    requires Get(ms, WireKey(f)) == Some(OptF64ToJson(v))
    ensures ReadOptF64(ms, f, asF64) == Ok(v)
  {
  }

  /** A member found in a prefix is found there in the whole: later members never shadow it. */
  lemma {:induction false} GetPrefix(prefix: seq<Member>, ms: seq<Member>, key: string)
    requires prefix <= ms && Get(prefix, key).Some?
    ensures Get(ms, key) == Get(prefix, key)
  {
    if prefix[0].key != key {
      assert prefix[1..] <= ms[1..];
      GetPrefix(prefix[1..], ms[1..], key);
    }
  }

  /** Every fixed member is found again under its own key. */
  lemma FixedMembersLookup(m: Metrics, i: nat)
    requires i < |FixedMembers(m)|
    ensures Get(FixedMembers(m), FixedMembers(m)[i].key) == Some(FixedMembers(m)[i].value)
  {
    var ms := FixedMembers(m);
    FixedLayout(m);
    MetricsKeysDistinct();
    assert forall k :: 0 <= k < |ms| ==> ms[k].key == WireKey(METRICS_LAYOUT[k]);
    assert forall k :: 0 <= k < |METRICS_LAYOUT| ==> METRICS_LAYOUT[k] == (METRICS_LAYOUT + QUALITY_LAYOUT)[k];
    GetFirst(ms, i);
  }

  /** The fixed member at `i` is what any object starting with the fixed members holds under its key. */
  lemma ReadBackAt(m: Metrics, ms: seq<Member>, i: nat)
    requires FixedMembers(m) <= ms && i < |FixedMembers(m)|
    ensures Get(ms, FixedMembers(m)[i].key) == Some(FixedMembers(m)[i].value)
  {
    FixedMembersLookup(m, i);
    GetPrefix(FixedMembers(m), ms, FixedMembers(m)[i].key);
  }

  lemma ReadBackOptU64At(m: Metrics, ms: seq<Member>, i: nat, f: Field, v: Option<U64>)
    requires FixedMembers(m) <= ms && i < |FixedMembers(m)|
    requires FixedMembers(m)[i] == Member(WireKey(f), OptU64ToJson(v))
    ensures ReadOptU64(ms, f) == Ok(v)
  {
    ReadBackAt(m, ms, i);
    ReadBackOptU64(ms, f, v);
  }

  lemma ReadBackOptF64At(m: Metrics, ms: seq<Member>, i: nat, f: Field, v: Option<F64>, asF64: int -> F64)
    requires FixedMembers(m) <= ms && i < |FixedMembers(m)|
    requires FixedMembers(m)[i] == Member(WireKey(f), OptF64ToJson(v))
    ensures ReadOptF64(ms, f, asF64) == Ok(v)
  {
    ReadBackAt(m, ms, i);
    ReadBackOptF64(ms, f, v, asF64);
  }

  // Every field of the fixed part reads back as the value written for it,
  // whatever members follow the fixed ones.

  lemma ReadBackRates(m: Metrics, ms: seq<Member>, asF64: int -> F64)
    requires FixedMembers(m) <= ms
    ensures ReadOptF64(ms, Jitter, asF64) == Ok(m.jitter)
    ensures ReadOptF64(ms, RoundTripTime, asF64) == Ok(m.roundTripTime)
  {
    ReadBackOptF64At(m, ms, 0, Jitter, m.jitter, asF64);
    ReadBackOptF64At(m, ms, 1, RoundTripTime, m.roundTripTime, asF64);
  }

  lemma ReadBackByteCounts(m: Metrics, ms: seq<Member>)
    requires FixedMembers(m) <= ms
    ensures ReadOptU64(ms, BytesSent) == Ok(m.bytesSent)
    ensures ReadOptU64(ms, BytesReceived) == Ok(m.bytesReceived)
  {
    ReadBackOptU64At(m, ms, 2, BytesSent, m.bytesSent);
    ReadBackOptU64At(m, ms, 3, BytesReceived, m.bytesReceived);
  }

  lemma ReadBackPackets(m: Metrics, ms: seq<Member>)
    requires FixedMembers(m) <= ms
    ensures ReadOptU64(ms, PacketsSent) == Ok(m.packetsSent)
    ensures ReadOptU64(ms, PacketsReceived) == Ok(m.packetsReceived)
    ensures ReadOptU64(ms, PacketsLost) == Ok(m.packetsLost)
  {
    ReadBackOptU64At(m, ms, 4, PacketsSent, m.packetsSent);
    ReadBackOptU64At(m, ms, 5, PacketsReceived, m.packetsReceived);
    ReadBackOptU64At(m, ms, 6, PacketsLost, m.packetsLost);
  }

  lemma ReadBackBytes(m: Metrics, ms: seq<Member>, asF64: int -> F64)
    requires FixedMembers(m) <= ms
    ensures ReadOptU64(ms, HeaderBytesSent) == Ok(m.headerBytesSent)
    ensures ReadOptU64(ms, HeaderBytesReceived) == Ok(m.headerBytesReceived)
    ensures ReadOptU64(ms, RetransmittedBytesSent) == Ok(m.retransmittedBytesSent)
    ensures ReadF64(ms, Timestamp, asF64) == Ok(m.timestamp)
  {
    ReadBackOptU64At(m, ms, 7, HeaderBytesSent, m.headerBytesSent);
    ReadBackOptU64At(m, ms, 8, HeaderBytesReceived, m.headerBytesReceived);
    ReadBackOptU64At(m, ms, 9, RetransmittedBytesSent, m.retransmittedBytesSent);
    ReadBackAt(m, ms, 10);
  }

  /**
   * Members after the eleven fixed ones never change the fixed fields: the
   * object decodes to `m` with whatever quality those members make up.
   */
  lemma TrailingMembers(m: Metrics, ms: seq<Member>, asF64: int -> F64)
    requires FixedMembers(m) <= ms
    ensures DecodeMetrics(JObject(ms), asF64) == Ok(m.(quality := ReadQuality(ms)))
  {
    ReadBackRates(m, ms, asF64);
    ReadBackByteCounts(m, ms);
    ReadBackPackets(m, ms);
    ReadBackBytes(m, ms, asF64);
  }

  /** A present quality reads back as written. */
  lemma ReadBackPresentQuality(m: Metrics)
    requires m.quality.Some?
    ensures ReadQuality(EncodeMetrics(m).members) == m.quality
  {
    EncodedMetricsLookup(m, 11);
    EncodedMetricsLookup(m, 12);
    ReadBackResolution(m.quality.value.frameResolution);
  }

  lemma ReadBackResolution(r: Resolution)
    ensures ReadResolution(EncodeResolution(r)) == Some(r)
  {
    GetFirst(EncodeResolution(r).members, 0);
    GetFirst(EncodeResolution(r).members, 1);
  }

  /** An absent quality leaves no member behind that could read back as one. */
  lemma ReadBackAbsentQuality(m: Metrics)
    requires m.quality.None?
    ensures ReadQuality(EncodeMetrics(m).members) == None
  {
    assert EncodeMetrics(m).members == FixedMembers(m);
    FixedMembersExcludeQuality(m);
    GetMissing(FixedMembers(m), WireKey(FramesPerSecond));
    QualityNeedsFramesPerSecond(FixedMembers(m));
  }

  lemma FixedMembersExcludeQuality(m: Metrics)
    ensures forall k :: 0 <= k < |FixedMembers(m)| ==> FixedMembers(m)[k].key != WireKey(FramesPerSecond)
    ensures forall k :: 0 <= k < |FixedMembers(m)| ==> FixedMembers(m)[k].key != WireKey(FrameResolution)
  {
    LayoutExcludesQuality();
    FixedLayout(m);
  }

  lemma FixedLayout(m: Metrics)
    ensures HasLayout(FixedMembers(m), METRICS_LAYOUT)
  {
  }

  lemma LayoutExcludesQuality()
    ensures forall k :: 0 <= k < |METRICS_LAYOUT| ==> WireKey(METRICS_LAYOUT[k]) != WireKey(FramesPerSecond)
    ensures forall k :: 0 <= k < |METRICS_LAYOUT| ==> WireKey(METRICS_LAYOUT[k]) != WireKey(FrameResolution)
  {
    assert "packetsReceived"[0] != "framesPerSecond"[0];
    assert "packetsReceived"[0] != "frameResolution"[0];
  }

  lemma QualityNeedsFramesPerSecond(ms: seq<Member>)
    requires Get(ms, WireKey(FramesPerSecond)) == None
    ensures ReadQuality(ms) == None
  {
  }

  lemma QualityNeedsFrameResolution(ms: seq<Member>)
    requires Get(ms, WireKey(FrameResolution)) == None
    ensures ReadQuality(ms) == None
  {
  }

  lemma {:induction false} GetMissing(members: seq<Member>, key: string)
    requires forall k :: 0 <= k < |members| ==> members[k].key != key
    ensures Get(members, key) == None
  {
    if |members| > 0 {
      GetMissing(members[1..], key);
    }
  }

  lemma DecodeEncodeMetrics(m: Metrics, asF64: int -> F64)
    ensures DecodeMetrics(EncodeMetrics(m), asF64) == Ok(m)
  {
    assert FixedMembers(m) <= EncodeMetrics(m).members;
    TrailingMembers(m, EncodeMetrics(m).members, asF64);
    if m.quality.Some? {
      ReadBackPresentQuality(m);
    } else {
      ReadBackAbsentQuality(m);
    }
  }

  lemma DecodeEncodeBundle(b: Bundle, asF64: int -> F64)
    ensures DecodeBundle(EncodeBundle(b), asF64) == Ok(b)
  {
    GetFirst(EncodeBundle(b).members, 0);
    GetFirst(EncodeBundle(b).members, 1);
    DecodeEncodeMetrics(b.audio, asF64);
    DecodeEncodeMetrics(b.video, asF64);
  }

  /** Decoding is the left inverse of encoding, for every digest. */
  lemma DecodeEncodeDigest(d: Digest, asF64: int -> F64)
    ensures DecodeDigest(EncodeDigest(d), asF64) == Ok(d)
  {
    var ms := EncodeDigest(d).members;
    GetFirst(ms, 0);
    GetFirst(ms, 1);
    GetFirst(ms, 2);
    GetFirst(ms, 3);
    DecodeEncodeBundle(d.outbound, asF64);
    DecodeEncodeBundle(d.inbound, asF64);
  }

  /** An integer in an `f64` field is read through the conversion, as serde_json reads it. */
  lemma IntegerFloatsRead(ms: seq<Member>, f: Field, n: int, asF64: int -> F64)
    requires Get(ms, WireKey(f)) == Some(JNumber(n))
    ensures ReadOptF64(ms, f, asF64) == Ok(Some(asF64(n)))
    ensures ReadF64(ms, f, asF64) == Ok(asF64(n))
  {
  }

  /** None of the optional metrics other than the jitter is present. */
  predicate OnlyJitterOptional(ms: seq<Member>) {
    && Get(ms, WireKey(RoundTripTime)) == None
    && Get(ms, WireKey(BytesSent)) == None && Get(ms, WireKey(BytesReceived)) == None
    && Get(ms, WireKey(PacketsSent)) == None && Get(ms, WireKey(PacketsReceived)) == None
    && Get(ms, WireKey(PacketsLost)) == None && Get(ms, WireKey(HeaderBytesSent)) == None
    && Get(ms, WireKey(HeaderBytesReceived)) == None && Get(ms, WireKey(RetransmittedBytesSent)) == None
    && Get(ms, WireKey(FramesPerSecond)) == None
  }

  /**
   * An object with a whole jitter, a whole timestamp and no other metric, as
   * a browser's `JSON.stringify` writes them, decodes whatever undeclared
   * members it also holds: the integers are converted and every other metric
   * is `None`.
   */
  lemma WholeNumbersDecode(ms: seq<Member>, jitter: int, timestamp: int, asF64: int -> F64)
    requires Get(ms, WireKey(Jitter)) == Some(JNumber(jitter))
    requires Get(ms, WireKey(Timestamp)) == Some(JNumber(timestamp))
    requires OnlyJitterOptional(ms)
    ensures DecodeMetrics(JObject(ms), asF64)
      == Ok(Metrics(Some(asF64(jitter)), None, None, None, None, None, None, None, None, None, asF64(timestamp), None))
  {
    AbsentCounters(ms, BytesSent, BytesReceived, PacketsSent, PacketsReceived);
    AbsentCounters(ms, PacketsLost, HeaderBytesSent, HeaderBytesReceived, RetransmittedBytesSent);
    QualityNeedsFramesPerSecond(ms);
  }

  /** Counters whose keys are missing read as `None`. */
  lemma AbsentCounters(ms: seq<Member>, a: Field, b: Field, c: Field, d: Field)
    requires Get(ms, WireKey(a)) == None && Get(ms, WireKey(b)) == None
    requires Get(ms, WireKey(c)) == None && Get(ms, WireKey(d)) == None
    ensures ReadOptU64(ms, a) == ReadOptU64(ms, b) == ReadOptU64(ms, c) == ReadOptU64(ms, d) == Ok(None)
  {
  }

  /** A metrics object without a timestamp is rejected, whatever else it holds. */
  lemma MissingTimestampRejected(ms: seq<Member>, asF64: int -> F64)
    requires Get(ms, WireKey(Timestamp)).None?
    ensures DecodeMetrics(JObject(ms), asF64).Err?
  {
    assert ReadF64(ms, Timestamp, asF64).Err?;
  }

  /**
   * A quality with only one of its two members present does not make the
   * object fail: the fixed fields decode as written and the quality is
   * absent, as serde reads a flattened optional struct it cannot complete.
   */
  lemma PartialQualityAccepted(m: Metrics, partial: Member, asF64: int -> F64)
    requires partial.key == WireKey(FramesPerSecond) || partial.key == WireKey(FrameResolution)
    ensures DecodeMetrics(JObject(FixedMembers(m) + [partial]), asF64) == Ok(m.(quality := None))
  {
    var ms := FixedMembers(m) + [partial];
    assert FixedMembers(m) <= ms;
    TrailingMembers(m, ms, asF64);
    PartialQualityMisses(m, partial);
  }

  lemma PartialQualityMisses(m: Metrics, partial: Member)
    requires partial.key == WireKey(FramesPerSecond) || partial.key == WireKey(FrameResolution)
    ensures ReadQuality(FixedMembers(m) + [partial]) == None
  {
    FixedMembersExcludeQuality(m);
    assert WireKey(FramesPerSecond)[5] != WireKey(FrameResolution)[5];
    if partial.key == WireKey(FramesPerSecond) {
      AppendedMissing(FixedMembers(m), partial, WireKey(FrameResolution));
      QualityNeedsFrameResolution(FixedMembers(m) + [partial]);
    } else {
      AppendedMissing(FixedMembers(m), partial, WireKey(FramesPerSecond));
      QualityNeedsFramesPerSecond(FixedMembers(m) + [partial]);
    }
  }

  lemma AppendedMissing(ms: seq<Member>, extra: Member, key: string)
    requires forall k :: 0 <= k < |ms| ==> ms[k].key != key
    requires extra.key != key
    ensures Get(ms + [extra], key) == None
  {
    var all := ms + [extra];
    assert forall k :: 0 <= k < |all| ==> all[k].key != key by {
      forall k | 0 <= k < |all| ensures all[k].key != key {
        if k < |ms| { assert all[k] == ms[k]; }
      }
    }
    GetMissing(all, key);
  }

  /** A quality with only one of its two members present is read as an absent quality. */
  lemma PartialQualityIsAbsent(ms: seq<Member>, asF64: int -> F64)
    requires Get(ms, WireKey(FramesPerSecond)).None? || Get(ms, WireKey(FrameResolution)).None?
    ensures DecodeMetrics(JObject(ms), asF64).Ok? ==> DecodeMetrics(JObject(ms), asF64).value.quality.None?
  {
    assert ReadQuality(ms).None?;
    DecodedQuality(ms, asF64);
  }

  /** A decoded metrics object's quality is what the flattened reader makes of its members. */
  lemma DecodedQuality(ms: seq<Member>, asF64: int -> F64)
    ensures DecodeMetrics(JObject(ms), asF64).Ok? ==> DecodeMetrics(JObject(ms), asF64).value.quality == ReadQuality(ms)
  {
  }
}
