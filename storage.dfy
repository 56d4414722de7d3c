/**
 * The storage layer (src/storage.rs): a digest either goes to InfluxDB as
 * four points, one per media slot, or is printed to the console as JSON.
 *
 * A point is an InfluxDB line-protocol record: a measurement name, string
 * tags, typed fields and an optional nanosecond timestamp. The library keeps
 * tags and fields in hash maps; here they are lists in insertion order, and
 * a lookup in which the last entry with a name wins (as a map insert does)
 * is the map's view of them. A field is recorded with the metric it comes
 * from; `Label` gives its InfluxDB name, and `LabelInjective` shows that
 * looking fields up by name and by metric agree.
 */
module Storage {
  import opened Base
  import opened Metrics

  datatype Value = VString(text: string) | VInteger(integer: I64) | VFloat(bits: F64)

  datatype Tag = Tag(name: string, value: Value)

  datatype FieldValue = FieldValue(column: Field, value: Value)

  datatype Point = Point(measurement: string, tags: seq<Tag>, fields: seq<FieldValue>, timestamp: Option<I64>)

  const AUDIO_IN: string := "inbound-audio"
  const VIDEO_IN: string := "inbound-video"
  const AUDIO_OUT: string := "outbound-audio"
  const VIDEO_OUT: string := "outbound-video"

  const ROOM_TAG: string := "room"
  const MEMBER_TAG: string := "member"

  // ---------------------------------------------------------------------------
  // Decimal rendering of ids

  function DigitChar(d: nat): (c: char)
    requires d < 10
    ensures '0' <= c <= '9'
  {
    ['0', '1', '2', '3', '4', '5', '6', '7', '8', '9'][d]
  }

  predicate IsDigit(c: char) {
    '0' <= c <= '9'
  }

  function DigitValue(c: char): (d: nat)
    requires IsDigit(c)
    ensures d < 10
  {
    c as int - '0' as int
  }

  /** `u64::to_string`: the shortest decimal rendering, without sign or leading zero. */
  function Decimal(n: nat): (s: string)
    ensures |s| >= 1
    ensures forall i :: 0 <= i < |s| ==> IsDigit(s[i])
    ensures |s| > 1 ==> s[0] != '0'
    ensures n < 10 <==> |s| == 1
    decreases n
  {
    if n < 10 then [DigitChar(n)] else Decimal(n / 10) + [DigitChar(n % 10)]
  }

  /** The number an all-digit string denotes, read most significant digit first. */
  function DigitsValue(s: string): nat
    requires forall i :: 0 <= i < |s| ==> IsDigit(s[i])
  {
    if |s| == 0 then 0 else DigitsValue(s[..|s| - 1]) * 10 + DigitValue(s[|s| - 1])
  }

  /**
   * `str::parse::<u64>`: an optional `+`, then one or more decimal digits,
   * denoting a value below 2^64; anything else is an error.
   */
  function ParseU64(s: string): (r: Option<U64>)
    ensures r.Some? ==> |s| >= 1
  {
    var digits := if |s| > 0 && s[0] == '+' then s[1..] else s;
    if |digits| == 0 || exists i :: 0 <= i < |digits| && !IsDigit(digits[i]) then None
    else if DigitsValue(digits) < TWO_64 then Some(DigitsValue(digits))
    else None
  }

  lemma {:induction false} DigitsOfDecimal(n: nat)
    ensures DigitsValue(Decimal(n)) == n
    decreases n
  {
    var s := Decimal(n);
    if n < 10 {
      assert s[..0] == [];
      assert DigitValue(DigitChar(n)) == n;
    } else {
      DigitsOfDecimal(n / 10);
      assert s[..|s| - 1] == Decimal(n / 10);
      assert DigitValue(DigitChar(n % 10)) == n % 10;
    }
  }

  /** Parsing the rendering of a `u64` gives the same `u64` back. */
  lemma ParseDecimal(n: U64)
    ensures ParseU64(Decimal(n)) == Some(n)
  {
    DigitsOfDecimal(n);
    assert Decimal(n)[0] != '+';
  }

  /** Distinct ids never share a rendering. */
  lemma DecimalInjective(a: U64, b: U64)
    requires Decimal(a) == Decimal(b)
    ensures a == b
  {
    ParseDecimal(a);
    ParseDecimal(b);
  }

  /**
   * `convert_janus_id`: InfluxDB 1.8 has no unsigned integers, so the id is
   * stored as its decimal string, which parses back to the id.
   */
  function ConvertJanusId(id: U64): (v: Value)
    ensures v.VString? && ParseU64(v.text) == Some(id)
  {
    ParseDecimal(id);
    VString(Decimal(id))
  }

  // ---------------------------------------------------------------------------
  // Points

  /** `ToPoint::create`: the measurement with its two tags, `room` then `member`. */
  function Create(measurement: string, roomId: U64, memberId: U64): (p: Point)
    ensures p.measurement == measurement && p.fields == [] && p.timestamp == None
    ensures |p.tags| == 2 && p.tags[0].name == ROOM_TAG && p.tags[1].name == MEMBER_TAG
  {
    Point(measurement, [Tag(ROOM_TAG, ConvertJanusId(roomId)), Tag(MEMBER_TAG, ConvertJanusId(memberId))], [], None)
  }

  /** The two tags `create` writes read back as the room and member ids. */
  lemma CreateCarriesIds(measurement: string, roomId: U64, memberId: U64)
    ensures var p := Create(measurement, roomId, memberId);
      p.tags[0].value.VString? && ParseU64(p.tags[0].value.text) == Some(roomId)
      && p.tags[1].value.VString? && ParseU64(p.tags[1].value.text) == Some(memberId)
  {
  }

  function AddTimestamp(p: Point, t: I64): Point {
    p.(timestamp := Some(t))
  }

  function AddField(p: Point, f: Field, v: Value): Point {
    p.(fields := p.fields + [FieldValue(f, v)])
  }

  // ---------------------------------------------------------------------------
  // The fields a metrics slot contributes

  /** The metrics fields that become point fields. */
  predicate IsColumn(f: Field) {
    f.Jitter? || f.RoundTripTime? || f.BytesSent? || f.BytesReceived? || f.PacketsSent?
    || f.PacketsReceived? || f.PacketsLost? || f.RetransmittedBytesSent? || f.HeaderBytesSent?
    || f.HeaderBytesReceived? || f.FramesPerSecond? || f.Width? || f.Height?
  }

  /** The InfluxDB field name of a column. */
  function Label(f: Field): string {
    match f
    case Jitter => "jitter"
    case RoundTripTime => "round-trip-time"
    case BytesSent => "bytes-sent"
    case BytesReceived => "bytes-received"
    case PacketsSent => "packets-sent"
    case PacketsReceived => "packets-received"
    case PacketsLost => "packets-lost"
    case RetransmittedBytesSent => "retransmitted-bytes-sent"
    case HeaderBytesSent => "header-bytes-sent"
    case HeaderBytesReceived => "header-bytes-received"
    case FramesPerSecond => "fps"
    case Width => "width"
    case Height => "height"
    case _ => ""
  }

  /** A counter is written as `value as i64`. */
  function Counter(v: Option<U64>): Option<Value> {
    if v.Some? then Some(VInteger(AsI64(v.value))) else None
  }

  /** A rate is written as the float it is. */
  function Rate(v: Option<F64>): Option<Value> {
    if v.Some? then Some(VFloat(v.value)) else None
  }

  /** The value a column takes for a metrics slot, absent when the metric is; other fields are never columns. */
  function Reading(m: Metrics, f: Field): (r: Option<Value>)
    ensures r.Some? ==> IsColumn(f)
  {
    match f
    case Jitter => Rate(m.jitter)
    case RoundTripTime => Rate(m.roundTripTime)
    case BytesSent => Counter(m.bytesSent)
    case BytesReceived => Counter(m.bytesReceived)
    case PacketsSent => Counter(m.packetsSent)
    case PacketsReceived => Counter(m.packetsReceived)
    case PacketsLost => Counter(m.packetsLost)
    case RetransmittedBytesSent => Counter(m.retransmittedBytesSent)
    case HeaderBytesSent => Counter(m.headerBytesSent)
    case HeaderBytesReceived => Counter(m.headerBytesReceived)
    case FramesPerSecond => if m.quality.Some? then Some(VInteger(m.quality.value.framesPerSecond)) else None
    case Width => if m.quality.Some? then Some(VInteger(m.quality.value.frameResolution.width)) else None
    case Height => if m.quality.Some? then Some(VInteger(m.quality.value.frameResolution.height)) else None
    case _ => None
  }

  function Some1<T>(o: Option<T>): nat {
    if o.Some? then 1 else 0
  }

  /** One field when the value is present, none when it is absent. */
  function Optional(f: Field, v: Option<Value>): (r: seq<FieldValue>)
    ensures |r| == Some1(v)
  {
    if v.Some? then [FieldValue(f, v.value)] else []
  }

  /** The three fields of a present quality: `fps`, `width`, `height`. */
  function QualityFields(q: Option<Quality>): (r: seq<FieldValue>)
    ensures |r| == if q.Some? then 3 else 0
  {
    if q.Some? then
      [FieldValue(FramesPerSecond, VInteger(q.value.framesPerSecond)),
       FieldValue(Width, VInteger(q.value.frameResolution.width)),
       FieldValue(Height, VInteger(q.value.frameResolution.height))]
    else []
  }

  /** The fields `enrich` appends for the two rates, jitter then round-trip time. */
  function RateFields(fields: seq<FieldValue>, m: Metrics): seq<FieldValue> {
    fields + Optional(Jitter, Rate(m.jitter)) + Optional(RoundTripTime, Rate(m.roundTripTime))
  }

  /** The fields `enrich` appends for the byte counters, sent then received. */
  function ByteFields(fields: seq<FieldValue>, m: Metrics): seq<FieldValue> {
    fields + Optional(BytesSent, Counter(m.bytesSent)) + Optional(BytesReceived, Counter(m.bytesReceived))
  }

  /** The fields `enrich` appends for the packet counters: sent, received, lost. */
  function PacketFields(fields: seq<FieldValue>, m: Metrics): seq<FieldValue> {
    fields + Optional(PacketsSent, Counter(m.packetsSent)) + Optional(PacketsReceived, Counter(m.packetsReceived))
    + Optional(PacketsLost, Counter(m.packetsLost))
  }

  /** The fields `enrich` appends for the overhead counters: retransmitted, header sent, header received. */
  function OverheadFields(fields: seq<FieldValue>, m: Metrics): seq<FieldValue> {
    fields + Optional(RetransmittedBytesSent, Counter(m.retransmittedBytesSent))
    + Optional(HeaderBytesSent, Counter(m.headerBytesSent)) + Optional(HeaderBytesReceived, Counter(m.headerBytesReceived))
  }

  /** The fields of a point after `enrich`: the old ones, then one per present metric in the source's order. */
  function Enriched(fields: seq<FieldValue>, m: Metrics): seq<FieldValue> {
    OverheadFields(PacketFields(ByteFields(RateFields(fields, m), m), m), m) + QualityFields(m.quality)
  }

  /** `if let Some(value) = ... { point = point.add_field(name, value) }` */
  function AddIfSome(p: Point, f: Field, v: Option<Value>): (r: Point)
    ensures r.measurement == p.measurement && r.tags == p.tags && r.timestamp == p.timestamp
    ensures r.fields == p.fields + Optional(f, v)
  {
    if v.Some? then AddField(p, f, v.value) else p
  }

  /**
   * `Metrics::enrich`: stamps the point with the converted timestamp, then
   * appends a field for each metric that is present, in the source's order,
   * and the three quality fields when the quality is present.
   */
  method Enrich(m: Metrics, point: Point, toNanos: F64 -> I64) returns (r: Point)
    ensures r.measurement == point.measurement && r.tags == point.tags
    ensures r.timestamp == Some(toNanos(m.timestamp))
    ensures r.fields == Enriched(point.fields, m)
  {
    var p := AddTimestamp(point, toNanos(m.timestamp));
    p := AddIfSome(p, Jitter, Rate(m.jitter));
    p := AddIfSome(p, RoundTripTime, Rate(m.roundTripTime));
    p := AddIfSome(p, BytesSent, Counter(m.bytesSent));
    p := AddIfSome(p, BytesReceived, Counter(m.bytesReceived));
    p := AddIfSome(p, PacketsSent, Counter(m.packetsSent));
    p := AddIfSome(p, PacketsReceived, Counter(m.packetsReceived));
    p := AddIfSome(p, PacketsLost, Counter(m.packetsLost));
    p := AddIfSome(p, RetransmittedBytesSent, Counter(m.retransmittedBytesSent));
    p := AddIfSome(p, HeaderBytesSent, Counter(m.headerBytesSent));
    p := AddIfSome(p, HeaderBytesReceived, Counter(m.headerBytesReceived));
    if m.quality.Some? {
      var q := m.quality.value;
      var before := p.fields;
      p := AddField(p, FramesPerSecond, VInteger(q.framesPerSecond));
      p := AddField(p, Width, VInteger(q.frameResolution.width));
      p := AddField(p, Height, VInteger(q.frameResolution.height));
      assert p.fields == before + QualityFields(m.quality);
    }
    r := p;
  }

  /** The point `convert` builds for one slot. */
  function PointOf(measurement: string, roomId: U64, memberId: U64, m: Metrics, toNanos: F64 -> I64): Point {
    Point(measurement, Create(measurement, roomId, memberId).tags, Enriched([], m), Some(toNanos(m.timestamp)))
  }

  /** `ToPoint::convert`: `create`, then `enrich`. */
  method Convert(m: Metrics, measurement: string, roomId: U64, memberId: U64, toNanos: F64 -> I64) returns (p: Point)
    ensures p == PointOf(measurement, roomId, memberId, m, toNanos)
  {
    p := Create(measurement, roomId, memberId);
    p := Enrich(m, p, toNanos);
  }

  // ---------------------------------------------------------------------------
  // What the fields of an enriched point hold

  /** How many of the ten counters and rates are present. */
  function CountersPresent(m: Metrics): nat {
    Some1(m.jitter) + Some1(m.roundTripTime) + Some1(m.bytesSent) + Some1(m.bytesReceived)
    + Some1(m.packetsSent) + Some1(m.packetsReceived) + Some1(m.packetsLost)
    + Some1(m.retransmittedBytesSent) + Some1(m.headerBytesSent) + Some1(m.headerBytesReceived)
  }

  /** `enrich` adds one field per present counter or rate, and three when the quality is present. */
  lemma EnrichedCount(fields: seq<FieldValue>, m: Metrics)
    ensures |Enriched(fields, m)| == |fields| + CountersPresent(m) + (if m.quality.Some? then 3 else 0)
  {
    var s, k := fields, |fields|;
    s, k := s + Optional(Jitter, Rate(m.jitter)), k + Some1(m.jitter);
    assert |s| == k;
    s, k := s + Optional(RoundTripTime, Rate(m.roundTripTime)), k + Some1(m.roundTripTime);
    assert |s| == k;
    s, k := s + Optional(BytesSent, Counter(m.bytesSent)), k + Some1(m.bytesSent);
    assert |s| == k;
    s, k := s + Optional(BytesReceived, Counter(m.bytesReceived)), k + Some1(m.bytesReceived);
    assert |s| == k;
    s, k := s + Optional(PacketsSent, Counter(m.packetsSent)), k + Some1(m.packetsSent);
    assert |s| == k;
    s, k := s + Optional(PacketsReceived, Counter(m.packetsReceived)), k + Some1(m.packetsReceived);
    assert |s| == k;
    s, k := s + Optional(PacketsLost, Counter(m.packetsLost)), k + Some1(m.packetsLost);
    assert |s| == k;
    s, k := s + Optional(RetransmittedBytesSent, Counter(m.retransmittedBytesSent)), k + Some1(m.retransmittedBytesSent);
    assert |s| == k;
    s, k := s + Optional(HeaderBytesSent, Counter(m.headerBytesSent)), k + Some1(m.headerBytesSent);
    assert |s| == k;
    s, k := s + Optional(HeaderBytesReceived, Counter(m.headerBytesReceived)), k + Some1(m.headerBytesReceived);
    assert |s| == k;
    assert Enriched(fields, m) == s + QualityFields(m.quality);
  }

  /** The map view by metric: the last field recorded for `f`. */
  function Lookup(fields: seq<FieldValue>, f: Field): Option<Value> {
    if |fields| == 0 then None
    else if fields[|fields| - 1].column == f then Some(fields[|fields| - 1].value)
    else Lookup(fields[..|fields| - 1], f)
  }

  /** The map view by InfluxDB name: the last field written under `name`. */
  function LookupName(fields: seq<FieldValue>, name: string): Option<Value> {
    if |fields| == 0 then None
    else if Label(fields[|fields| - 1].column) == name then Some(fields[|fields| - 1].value)
    else LookupName(fields[..|fields| - 1], name)
  }

  lemma LookupSnoc(fields: seq<FieldValue>, e: FieldValue, f: Field)
    ensures Lookup(fields + [e], f) == if e.column == f then Some(e.value) else Lookup(fields, f)
  {
    assert (fields + [e])[..|fields|] == fields;
  }

  lemma LookupOptional(fields: seq<FieldValue>, g: Field, v: Option<Value>, f: Field)
    ensures Lookup(fields + Optional(g, v), f) == if g == f && v.Some? then v else Lookup(fields, f)
  {
    if v.Some? {
      LookupSnoc(fields, FieldValue(g, v.value), f);
    } else {
      assert fields + [] == fields;
    }
  }

  lemma LookupQuality(fields: seq<FieldValue>, m: Metrics, f: Field)
    ensures Lookup(fields + QualityFields(m.quality), f) ==
      if (f.FramesPerSecond? || f.Width? || f.Height?) && m.quality.Some? then Reading(m, f) else Lookup(fields, f)
  {
    var q := m.quality;
    if q.Some? {
      var a := FieldValue(FramesPerSecond, VInteger(q.value.framesPerSecond));
      var b := FieldValue(Width, VInteger(q.value.frameResolution.width));
      var c := FieldValue(Height, VInteger(q.value.frameResolution.height));
      assert fields + QualityFields(q) == fields + [a] + [b] + [c];
      LookupSnoc(fields + [a] + [b], c, f);
      LookupSnoc(fields + [a], b, f);
      LookupSnoc(fields, a, f);
    } else {
      assert fields + [] == fields;
    }
  }

  lemma LookupRates(fields: seq<FieldValue>, m: Metrics, f: Field)
    ensures Lookup(RateFields(fields, m), f) ==
      if (f.Jitter? || f.RoundTripTime?) && Reading(m, f).Some? then Reading(m, f) else Lookup(fields, f)
  {
    var s := fields + Optional(Jitter, Rate(m.jitter));
    LookupOptional(s, RoundTripTime, Rate(m.roundTripTime), f);
    LookupOptional(fields, Jitter, Rate(m.jitter), f);
  }

  lemma LookupBytes(fields: seq<FieldValue>, m: Metrics, f: Field)
    ensures Lookup(ByteFields(fields, m), f) ==
      if (f.BytesSent? || f.BytesReceived?) && Reading(m, f).Some? then Reading(m, f) else Lookup(fields, f)
  {
    var s := fields + Optional(BytesSent, Counter(m.bytesSent));
    LookupOptional(s, BytesReceived, Counter(m.bytesReceived), f);
    LookupOptional(fields, BytesSent, Counter(m.bytesSent), f);
  }

  lemma LookupPackets(fields: seq<FieldValue>, m: Metrics, f: Field)
    ensures Lookup(PacketFields(fields, m), f) ==
      if (f.PacketsSent? || f.PacketsReceived? || f.PacketsLost?) && Reading(m, f).Some? then Reading(m, f) else Lookup(fields, f)
  {
    var s1 := fields + Optional(PacketsSent, Counter(m.packetsSent));
    var s2 := s1 + Optional(PacketsReceived, Counter(m.packetsReceived));
    LookupOptional(s2, PacketsLost, Counter(m.packetsLost), f);
    LookupOptional(s1, PacketsReceived, Counter(m.packetsReceived), f);
    LookupOptional(fields, PacketsSent, Counter(m.packetsSent), f);
  }

  lemma LookupOverhead(fields: seq<FieldValue>, m: Metrics, f: Field)
    ensures Lookup(OverheadFields(fields, m), f) ==
      if (f.RetransmittedBytesSent? || f.HeaderBytesSent? || f.HeaderBytesReceived?) && Reading(m, f).Some? then Reading(m, f) else Lookup(fields, f)
  {
    var s1 := fields + Optional(RetransmittedBytesSent, Counter(m.retransmittedBytesSent));
    var s2 := s1 + Optional(HeaderBytesSent, Counter(m.headerBytesSent));
    LookupOptional(s2, HeaderBytesReceived, Counter(m.headerBytesReceived), f);
    LookupOptional(s1, HeaderBytesSent, Counter(m.headerBytesSent), f);
    LookupOptional(fields, RetransmittedBytesSent, Counter(m.retransmittedBytesSent), f);
  }

  /**
   * `enrich`'s fields as a map: a column holds its metric's value when the
   * metric is present, and otherwise what the point held before. Counters
   * are the `as i64` of the `u64`; rates are the float bits unchanged; `fps`,
   * `width` and `height` are the quality's values.
   */
  lemma LookupEnriched(fields: seq<FieldValue>, m: Metrics, f: Field)
    ensures Lookup(Enriched(fields, m), f) == if Reading(m, f).Some? then Reading(m, f) else Lookup(fields, f)
  {
    var s1 := RateFields(fields, m);
    var s2 := ByteFields(s1, m);
    var s3 := PacketFields(s2, m);
    var s4 := OverheadFields(s3, m);
    LookupRates(fields, m, f);
    LookupBytes(s1, m, f);
    LookupPackets(s2, m, f);
    LookupOverhead(s3, m, f);
    LookupQuality(s4, m, f);
  }

  /** On a fresh point, each column is present exactly when its metric is, with its reading. */
  lemma EnrichedLookup(m: Metrics, f: Field)
    ensures Lookup(Enriched([], m), f) == Reading(m, f)
  {
    LookupEnriched([], m, f);
  }

  predicate AllColumns(fields: seq<FieldValue>) {
    forall e :: e in fields ==> IsColumn(e.column)
  }

  lemma AppendColumns(a: seq<FieldValue>, b: seq<FieldValue>)
    requires AllColumns(a) && AllColumns(b)
    ensures AllColumns(a + b)
  {
  }

  /** Every field `enrich` adds is a column. */
  lemma EnrichedColumns(fields: seq<FieldValue>, m: Metrics)
    requires AllColumns(fields)
    ensures AllColumns(Enriched(fields, m))
  {
    var s := fields;
    AppendColumns(s, Optional(Jitter, Rate(m.jitter)));
    s := s + Optional(Jitter, Rate(m.jitter));
    AppendColumns(s, Optional(RoundTripTime, Rate(m.roundTripTime)));
    s := s + Optional(RoundTripTime, Rate(m.roundTripTime));
    AppendColumns(s, Optional(BytesSent, Counter(m.bytesSent)));
    s := s + Optional(BytesSent, Counter(m.bytesSent));
    AppendColumns(s, Optional(BytesReceived, Counter(m.bytesReceived)));
    s := s + Optional(BytesReceived, Counter(m.bytesReceived));
    AppendColumns(s, Optional(PacketsSent, Counter(m.packetsSent)));
    s := s + Optional(PacketsSent, Counter(m.packetsSent));
    AppendColumns(s, Optional(PacketsReceived, Counter(m.packetsReceived)));
    s := s + Optional(PacketsReceived, Counter(m.packetsReceived));
    AppendColumns(s, Optional(PacketsLost, Counter(m.packetsLost)));
    s := s + Optional(PacketsLost, Counter(m.packetsLost));
    AppendColumns(s, Optional(RetransmittedBytesSent, Counter(m.retransmittedBytesSent)));
    s := s + Optional(RetransmittedBytesSent, Counter(m.retransmittedBytesSent));
    AppendColumns(s, Optional(HeaderBytesSent, Counter(m.headerBytesSent)));
    s := s + Optional(HeaderBytesSent, Counter(m.headerBytesSent));
    AppendColumns(s, Optional(HeaderBytesReceived, Counter(m.headerBytesReceived)));
    s := s + Optional(HeaderBytesReceived, Counter(m.headerBytesReceived));
    AppendColumns(s, QualityFields(m.quality));
  }

  // ---------------------------------------------------------------------------
  // The order of the columns

  /** The thirteen columns in the order `enrich` writes them. */
  const ENRICH_ORDER: seq<Field> := [Jitter, RoundTripTime, BytesSent, BytesReceived,
    PacketsSent, PacketsReceived, PacketsLost, RetransmittedBytesSent, HeaderBytesSent,
    HeaderBytesReceived, FramesPerSecond, Width, Height]

  /** The columns of a list of fields, in order. */
  function Columns(fields: seq<FieldValue>): seq<Field> {
    if |fields| == 0 then [] else Columns(fields[..|fields| - 1]) + [fields[|fields| - 1].column]
  }

  /** The columns of `cols` whose metric is present, order kept. */
  function PresentColumns(m: Metrics, cols: seq<Field>): seq<Field> {
    if |cols| == 0 then []
    else PresentColumns(m, cols[..|cols| - 1]) + (if Reading(m, cols[|cols| - 1]).Some? then [cols[|cols| - 1]] else [])
  }

  lemma {:induction false} ColumnsAppend(a: seq<FieldValue>, b: seq<FieldValue>)
    ensures Columns(a + b) == Columns(a) + Columns(b)
    decreases |b|
  {
    if |b| == 0 {
      assert a + b == a;
    } else {
      assert (a + b)[..|a + b| - 1] == a + b[..|b| - 1];
      ColumnsAppend(a, b[..|b| - 1]);
    }
  }

  /** One more column written when present extends the columns by that column when present. */
  lemma OrderStep(m: Metrics, fields: seq<FieldValue>, cols: seq<Field>, f: Field)
    requires Columns(fields) == PresentColumns(m, cols)
    ensures Columns(fields + Optional(f, Reading(m, f))) == PresentColumns(m, cols + [f])
  {
    ColumnsAppend(fields, Optional(f, Reading(m, f)));
    assert (cols + [f])[..|cols|] == cols;
  }

  /** Two more columns, each written when present. */
  lemma OrderSteps(m: Metrics, fields: seq<FieldValue>, cols: seq<Field>, f: Field, g: Field)
    requires Columns(fields) == PresentColumns(m, cols)
    ensures Columns(fields + Optional(f, Reading(m, f)) + Optional(g, Reading(m, g)))
      == PresentColumns(m, cols + [f] + [g])
  {
    OrderStep(m, fields, cols, f);
    OrderStep(m, fields + Optional(f, Reading(m, f)), cols + [f], g);
  }

  lemma RateOrder(m: Metrics, fields: seq<FieldValue>, cols: seq<Field>)
    requires Columns(fields) == PresentColumns(m, cols)
    ensures Columns(RateFields(fields, m)) == PresentColumns(m, cols + [Jitter] + [RoundTripTime])
  {
    OrderSteps(m, fields, cols, Jitter, RoundTripTime);
  }

  lemma ByteOrder(m: Metrics, fields: seq<FieldValue>, cols: seq<Field>)
    requires Columns(fields) == PresentColumns(m, cols)
    ensures Columns(ByteFields(fields, m)) == PresentColumns(m, cols + [BytesSent] + [BytesReceived])
  {
    OrderSteps(m, fields, cols, BytesSent, BytesReceived);
  }

  lemma PacketOrder(m: Metrics, fields: seq<FieldValue>, cols: seq<Field>)
    requires Columns(fields) == PresentColumns(m, cols)
    ensures Columns(PacketFields(fields, m)) == PresentColumns(m, cols + [PacketsSent] + [PacketsReceived] + [PacketsLost])
  {
    var s2 := fields + Optional(PacketsSent, Reading(m, PacketsSent)) + Optional(PacketsReceived, Reading(m, PacketsReceived));
    var c2 := cols + [PacketsSent] + [PacketsReceived];
    assert Columns(s2) == PresentColumns(m, c2) by { OrderSteps(m, fields, cols, PacketsSent, PacketsReceived); }
    assert PacketFields(fields, m) == s2 + Optional(PacketsLost, Reading(m, PacketsLost));
    OrderStep(m, s2, c2, PacketsLost);
  }

  lemma OverheadOrder(m: Metrics, fields: seq<FieldValue>, cols: seq<Field>)
    requires Columns(fields) == PresentColumns(m, cols)
    ensures Columns(OverheadFields(fields, m))
      == PresentColumns(m, cols + [RetransmittedBytesSent] + [HeaderBytesSent] + [HeaderBytesReceived])
  {
    var s2 := fields + Optional(RetransmittedBytesSent, Reading(m, RetransmittedBytesSent))
      + Optional(HeaderBytesSent, Reading(m, HeaderBytesSent));
    var c2 := cols + [RetransmittedBytesSent] + [HeaderBytesSent];
    assert Columns(s2) == PresentColumns(m, c2) by {
      OrderSteps(m, fields, cols, RetransmittedBytesSent, HeaderBytesSent);
    }
    assert OverheadFields(fields, m) == s2 + Optional(HeaderBytesReceived, Reading(m, HeaderBytesReceived));
    OrderStep(m, s2, c2, HeaderBytesReceived);
  }

  /** The quality's three fields are `fps`, `width` and `height`, each written when present. */
  lemma QualityAsOptionals(m: Metrics)
    ensures QualityFields(m.quality)
      == Optional(FramesPerSecond, Reading(m, FramesPerSecond)) + Optional(Width, Reading(m, Width))
         + Optional(Height, Reading(m, Height))
  {
  }

  lemma QualityOrder(m: Metrics, fields: seq<FieldValue>, cols: seq<Field>)
    requires Columns(fields) == PresentColumns(m, cols)
    ensures Columns(fields + QualityFields(m.quality)) == PresentColumns(m, cols + [FramesPerSecond] + [Width] + [Height])
  {
    var a, b, c := Optional(FramesPerSecond, Reading(m, FramesPerSecond)), Optional(Width, Reading(m, Width)),
      Optional(Height, Reading(m, Height));
    var c1, c2 := cols + [FramesPerSecond], cols + [FramesPerSecond] + [Width];
    assert fields + QualityFields(m.quality) == fields + a + b + c by {
      QualityAsOptionals(m);
      Associative(fields, a + b, c);
      Associative(fields, a, b);
    }
    assert Columns(fields + a) == PresentColumns(m, c1) by { OrderStep(m, fields, cols, FramesPerSecond); }
    assert Columns(fields + a + b) == PresentColumns(m, c2) by { OrderStep(m, fields + a, c1, Width); }
    assert Columns(fields + a + b + c) == PresentColumns(m, c2 + [Height]) by {
      OrderStep(m, fields + a + b, c2, Height);
    }
  }

  /** On a fresh point, the columns are the present ones, in the fixed order of `enrich`. */
  lemma EnrichedOrder(m: Metrics)
    ensures Columns(Enriched([], m)) == PresentColumns(m, ENRICH_ORDER)
  {
    var s1 := RateFields([], m);
    var s2 := ByteFields(s1, m);
    var s3 := PacketFields(s2, m);
    var s4 := OverheadFields(s3, m);
    var c1 := [] + [Jitter] + [RoundTripTime];
    var c2 := c1 + [BytesSent] + [BytesReceived];
    var c3 := c2 + [PacketsSent] + [PacketsReceived] + [PacketsLost];
    var c4 := c3 + [RetransmittedBytesSent] + [HeaderBytesSent] + [HeaderBytesReceived];
    RateOrder(m, [], []);
    ByteOrder(m, s1, c1);
    PacketOrder(m, s2, c2);
    OverheadOrder(m, s3, c3);
    QualityOrder(m, s4, c4);
    assert c4 + [FramesPerSecond] + [Width] + [Height] == ENRICH_ORDER;
  }

  /** The column a label's length and next-to-last character name. */
  function ColumnOfMark(len: int, c: char): Field {
    if len == 6 && c == 'e' then Jitter
    else if len == 15 then RoundTripTime
    else if len == 10 then BytesSent
    else if len == 14 then BytesReceived
    else if len == 12 && c == 'n' then PacketsSent
    else if len == 16 then PacketsReceived
    else if len == 12 then PacketsLost
    else if len == 24 then RetransmittedBytesSent
    else if len == 17 then HeaderBytesSent
    else if len == 21 then HeaderBytesReceived
    else if len == 3 then FramesPerSecond
    else if len == 5 then Width
    else Height
  }

  /** A label determines its column: read back from its length and next-to-last character. */
  lemma LabelMark(f: Field)
    requires IsColumn(f)
    ensures |Label(f)| >= 2 && ColumnOfMark(|Label(f)|, Label(f)[|Label(f)| - 2]) == f
  {
  }

  /** No two columns share an InfluxDB name. */
  lemma LabelInjective(a: Field, b: Field)
    requires IsColumn(a) && IsColumn(b) && a != b
    ensures Label(a) != Label(b)
  {
    LabelMark(a);
    LabelMark(b);
  }

  /** When every field is a column, looking up by name and by metric agree: no field shadows another. */
  lemma {:induction false} LookupByName(fields: seq<FieldValue>, f: Field)
    requires IsColumn(f)
    requires AllColumns(fields)
    ensures LookupName(fields, Label(f)) == Lookup(fields, f)
  {
    if |fields| > 0 {
      var last := fields[|fields| - 1];
      if last.column != f {
        LabelInjective(last.column, f);
      }
      var init := fields[..|fields| - 1];
      assert forall e :: e in init ==> e in fields;
      LookupByName(init, f);
    }
  }

  /** The fields `enrich` writes, looked up by their InfluxDB names, hold each metric's reading. */
  lemma EnrichedLookupByName(m: Metrics, f: Field)
    requires IsColumn(f)
    ensures LookupName(Enriched([], m), Label(f)) == Reading(m, f)
  {
    EnrichedColumns([], m);
    LookupByName(Enriched([], m), f);
    EnrichedLookup(m, f);
  }

  /** The count a counter column is written from; `None` for the other columns. */
  function CountOf(m: Metrics, f: Field): Option<U64> {
    match f
    case BytesSent => m.bytesSent
    case BytesReceived => m.bytesReceived
    case PacketsSent => m.packetsSent
    case PacketsReceived => m.packetsReceived
    case PacketsLost => m.packetsLost
    case RetransmittedBytesSent => m.retransmittedBytesSent
    case HeaderBytesSent => m.headerBytesSent
    case HeaderBytesReceived => m.headerBytesReceived
    case _ => None
  }

  /** Every counter's field value: exact below 2^63, wrapped to a negative integer above. */
  lemma CounterValue(m: Metrics, f: Field)
    requires CountOf(m, f).Some?
    ensures Lookup(Enriched([], m), f) == Some(VInteger(AsI64(CountOf(m, f).value)))
    ensures CountOf(m, f).value < TWO_63 ==> AsI64(CountOf(m, f).value) == CountOf(m, f).value
    ensures CountOf(m, f).value >= TWO_63 ==> AsI64(CountOf(m, f).value) < 0
  {
    EnrichedLookup(m, f);
    assert Reading(m, f) == Counter(CountOf(m, f));
  }

  /** With quality present, `fps`, `width` and `height` carry its values exactly. */
  lemma QualityValues(m: Metrics)
    requires m.quality.Some?
    ensures Lookup(Enriched([], m), FramesPerSecond) == Some(VInteger(m.quality.value.framesPerSecond))
    ensures Lookup(Enriched([], m), Width) == Some(VInteger(m.quality.value.frameResolution.width))
    ensures Lookup(Enriched([], m), Height) == Some(VInteger(m.quality.value.frameResolution.height))
  {
    EnrichedLookup(m, FramesPerSecond);
    EnrichedLookup(m, Width);
    EnrichedLookup(m, Height);
  }

  /** With quality absent, none of the three quality fields is written. */
  lemma AbsentQuality(m: Metrics)
    requires m.quality.None?
    ensures Lookup(Enriched([], m), FramesPerSecond).None?
    ensures Lookup(Enriched([], m), Width).None?
    ensures Lookup(Enriched([], m), Height).None?
  {
    EnrichedLookup(m, FramesPerSecond);
    EnrichedLookup(m, Width);
    EnrichedLookup(m, Height);
  }

  // ---------------------------------------------------------------------------
  // Sinks

  datatype UdpClient = UdpClient(address: string)

  /** What a `process` call does to the outside world, in order. */
  datatype Effect = WritePoint(client: UdpClient, point: Point) | PrintJson(json: Json)

  /** The four slots of a digest with their measurement names, in the order they are written. */
  function Slots(d: Digest): seq<(string, Metrics)> {
    [(AUDIO_IN, d.inbound.audio), (AUDIO_OUT, d.outbound.audio),
     (VIDEO_IN, d.inbound.video), (VIDEO_OUT, d.outbound.video)]
  }

  /** The four points of a digest, in the order they are written. */
  function DigestPoints(d: Digest, toNanos: F64 -> I64): seq<Point> {
    seq(4, i requires 0 <= i < 4 => PointOf(Slots(d)[i].0, d.roomId, d.memberId, Slots(d)[i].1, toNanos))
  }

  /** `UdpClient::process`: converts the four slots and writes them. */
  method UdpProcess(client: UdpClient, d: Digest, toNanos: F64 -> I64) returns (effects: seq<Effect>)
    ensures |effects| == 4
    ensures forall i :: 0 <= i < 4 ==> effects[i] == WritePoint(client, DigestPoints(d, toNanos)[i])
  {
    var audioIn := Convert(d.inbound.audio, AUDIO_IN, d.roomId, d.memberId, toNanos);
    var audioOut := Convert(d.outbound.audio, AUDIO_OUT, d.roomId, d.memberId, toNanos);
    var videoIn := Convert(d.inbound.video, VIDEO_IN, d.roomId, d.memberId, toNanos);
    var videoOut := Convert(d.outbound.video, VIDEO_OUT, d.roomId, d.memberId, toNanos);
    effects := [WritePoint(client, audioIn), WritePoint(client, audioOut),
                WritePoint(client, videoIn), WritePoint(client, videoOut)];
  }

  /** `Storage for Option<D>`: the database if there is one, else the digest's JSON on the console, which reads back as the digest. */
  method Process(db: Option<UdpClient>, d: Digest, toNanos: F64 -> I64) returns (effects: seq<Effect>)
    ensures db.None? ==> effects == [PrintJson(EncodeDigest(d))]
    ensures db.None? ==> !Writes(effects)
    ensures db.None? ==> forall asF64: int -> F64 :: DecodeDigest(effects[0].json, asF64) == Ok(d)
    ensures db.Some? ==>
      |effects| == 4 && forall i :: 0 <= i < 4 ==> effects[i] == WritePoint(db.value, DigestPoints(d, toNanos)[i])
  {
    if db.Some? {
      effects := UdpProcess(db.value, d, toNanos);
    } else {
      effects := [PrintJson(EncodeDigest(d))];
      forall asF64: int -> F64 ensures DecodeDigest(effects[0].json, asF64) == Ok(d) {
        DecodeEncodeDigest(d, asF64);
      }
    }
  }

  predicate Writes(effects: seq<Effect>) {
    exists i :: 0 <= i < |effects| && effects[i].WritePoint?
  }

  /** Every point of a digest is tagged with its room and member ids, recoverable from the tag text. */
  lemma PointsCarryIds(d: Digest, toNanos: F64 -> I64, i: nat)
    requires i < 4
    ensures var p := DigestPoints(d, toNanos)[i];
      |p.tags| == 2 && p.tags[0].name == ROOM_TAG && p.tags[1].name == MEMBER_TAG
      && p.tags[0].value.VString? && ParseU64(p.tags[0].value.text) == Some(d.roomId)
      && p.tags[1].value.VString? && ParseU64(p.tags[1].value.text) == Some(d.memberId)
  {
    assert DigestPoints(d, toNanos)[i].tags == Create(Slots(d)[i].0, d.roomId, d.memberId).tags;
    CreateCarriesIds(Slots(d)[i].0, d.roomId, d.memberId);
  }
}
