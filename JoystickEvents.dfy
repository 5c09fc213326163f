/**
  One change in the state of a joystick and when it happened: the value
  type that the macro recorder stores, writes to a file one line per event,
  and dispatches on.
 */
module JoystickEvents {
  import opened JavaLang
  import opened Text

  /** What changed: a button went down or up, an axis moved, or the POV hat moved. */
  datatype EventType = Press | Release | Axis | Pov

  /**
    A boxed `java.lang.Double`, identified by its `doubleToLongBits` image:
    this is exactly what `Double.equals` and `Double.hashCode` look at (all
    NaNs share one image; 0.0 and -0.0 do not).
   */
  datatype JavaDouble = JavaDouble(longBits: bv64)

  /** `Double.equals(Object)`: false for null, otherwise a comparison of the bit images. */
  function DoubleEquals(d: JavaDouble, that: Option<JavaDouble>): (r: bool)
    ensures r <==> that == Some(d)
  {
    that.Some? && that.value.longBits == d.longBits
  }

  /** The two halves of a 64-bit image xor-ed: the low 32 bits of `bits ^ (bits >>> 32)`, unsigned. */
  function FoldedBits(bits: bv64): (n: nat)
    ensures n < 0x1_0000_0000
  {
    ((bits ^ (bits >> 32)) & 0xFFFF_FFFF) as int
  }

  /** `Double.hashCode()`: the folded bit image narrowed to a signed `int`. */
  function DoubleHashCode(d: JavaDouble): (r: Int32)
    ensures r == Wrap32(FoldedBits(d.longBits))
  {
    var folded := FoldedBits(d.longBits);
    WrapOfUnsigned(folded);
    if folded < 0x8000_0000 then folded else folded - 0x1_0000_0000
  }

  /**
    A joystick event. For Pov events the hat position travels in `id`;
    `val` is the axis value where one was given to the constructor.
   */
  datatype JoystickEvent = JoystickEvent(
    eventType: EventType,
    stickId: Int32,
    id: Int32,
    val: Option<JavaDouble>,
    time: Int64)
  {
    /** The button or axis number; null for a Pov event. */
    function GetID(): (r: Option<Int32>)
      ensures r.Some? <==> eventType != Pov
      ensures r.Some? ==> r.value == id
    {
      if eventType != Pov then Some(id) else None
    }

    /** The hat position; null unless this is a Pov event. */
    function GetPOVValue(): (r: Option<Int32>)
      ensures r.Some? <==> eventType == Pov
      ensures r.Some? ==> r.value == id
    {
      if eventType == Pov then Some(id) else None
    }

    /**
      The one-line serialisation:
      `time:tag,stickId,id,` then `value,` for an Axis event only, then a newline.
      `show` is the text `String.valueOf(double)` gives a value.
     */
    function ToString(show: JavaDouble -> string): (s: string)
      ensures |s| > |Decimal(time)| && s[|s| - 1] == '\n'
      ensures s[..|Decimal(time)| + 1] == Decimal(time) + ":"
    {
      Decimal(time) + ":" + TypeTag(eventType) + "," + Decimal(stickId) + "," + Decimal(id) + ","
      + (if eventType == Axis then ValueText(val, show) + "," else "")
      + "\n"
    }

    /**
      `equals(JoystickEvent)`: the same reference, or a non-null event with
      the same stick, id, time and type and equal (or both null) values.
      In a value model this is exactly equality of the two events.
     */
    function Equals(that: Option<JoystickEvent>): (r: bool)
      ensures r <==> that == Some(this)
    {
      that == Some(this)
      || (that.Some?
          && !(stickId != that.value.stickId || id != that.value.id
               || time != that.value.time || eventType != that.value.eventType)
          && (if val.Some? then DoubleEquals(val.value, that.value.val) else that.value.val.None?))
    }

    /**
      `hashCode()`: `((type * 31 + stickId) * 31 + id) * 31 + valueHash` in
      wrapping `int` arithmetic. `typeHash` is the enum constant's identity
      hash, which Java leaves to the runtime.
     */
    function HashCode(typeHash: EventType -> Int32): (h: Int32)
      ensures h == Wrap32(((typeHash(eventType) * 31 + stickId) * 31 + id) * 31
                          + (if val.Some? then DoubleHashCode(val.value) else 0))
    {
      var h0 := typeHash(eventType);
      var h1 := Wrap32(Wrap32(h0 * 31) + stickId);
      var h2 := Wrap32(Wrap32(h1 * 31) + id);
      var v := if val.Some? then DoubleHashCode(val.value) else 0;
      HashSteps(h0, stickId, id, v);
      Wrap32(Wrap32(h2 * 31) + v)
    }
  }

  /**
    Wrapping after every step of `((h0 * 31 + a) * 31 + b) * 31 + v`, as
    Java's `int` arithmetic does, gives the exact value wrapped once.
   */
  lemma HashSteps(h0: int, a: int, b: int, v: int)
    ensures Wrap32(Wrap32(Wrap32(Wrap32(Wrap32(Wrap32(h0 * 31) + a) * 31) + b) * 31) + v)
         == Wrap32(((h0 * 31 + a) * 31 + b) * 31 + v)
  {
    var e1 := h0 * 31 + a;
    var e2 := e1 * 31 + b;
    var h1: int := Wrap32(Wrap32(h0 * 31) + a);
    assert h1 == Wrap32(e1) by { WrapPlus(h0 * 31, a); }
    var h2: int := Wrap32(Wrap32(h1 * 31) + b);
    assert h2 == Wrap32(e2) by {
      WrapPlus(h1 * 31, b);
      WrapInside(e1, 31, b);
    }
    assert Wrap32(Wrap32(h2 * 31) + v) == Wrap32(e2 * 31 + v) by {
      WrapPlus(h2 * 31, v);
      WrapInside(e2, 31, v);
    }
  }

  // ---------------------------------------------------------------------
  // The four constructors. The two without a time stamp read the clock;
  // the clock reading is the parameter `now`.
  // ---------------------------------------------------------------------

  /** `JoystickEvent(type, id, btnId)`: a button or hat event stamped with the current time. */
  function NewEvent(kind: EventType, stickId: Int32, btnId: Int32, now: Int64): (e: JoystickEvent)
    ensures e.eventType == kind && e.stickId == stickId && e.time == now
    ensures e.val == None
    ensures kind != Pov ==> e.GetID() == Some(btnId)
    ensures kind == Pov ==> e.GetPOVValue() == Some(btnId)
  {
    JoystickEvent(kind, stickId, btnId, None, now)
  }

  /** `JoystickEvent(type, id, axisId, val)`: an event with a value, stamped with the current time. */
  function NewValueEvent(kind: EventType, stickId: Int32, axisId: Int32, val: JavaDouble, now: Int64): (e: JoystickEvent)
    ensures e.eventType == kind && e.stickId == stickId && e.time == now
    ensures e.val == Some(val)
    ensures kind != Pov ==> e.GetID() == Some(axisId)
    ensures kind == Pov ==> e.GetPOVValue() == Some(axisId)
  {
    JoystickEvent(kind, stickId, axisId, Some(val), now)
  }

  /** `JoystickEvent(type, time, id, btnId)`: a button or hat event at a given time. */
  function NewTimedEvent(kind: EventType, time: Int64, stickId: Int32, btnId: Int32): (e: JoystickEvent)
    ensures e.eventType == kind && e.stickId == stickId && e.time == time
    ensures e.val == None
    ensures kind != Pov ==> e.GetID() == Some(btnId)
    ensures kind == Pov ==> e.GetPOVValue() == Some(btnId)
  {
    JoystickEvent(kind, stickId, btnId, None, time)
  }

  /** `JoystickEvent(type, time, id, axisId, val)`: an event with a value at a given time. */
  function NewTimedValueEvent(kind: EventType, time: Int64, stickId: Int32, axisId: Int32, val: JavaDouble): (e: JoystickEvent)
    ensures e.eventType == kind && e.stickId == stickId && e.time == time
    ensures e.val == Some(val)
    ensures kind != Pov ==> e.GetID() == Some(axisId)
    ensures kind == Pov ==> e.GetPOVValue() == Some(axisId)
  {
    JoystickEvent(kind, stickId, axisId, Some(val), time)
  }

  // ---------------------------------------------------------------------
  // The text format
  // ---------------------------------------------------------------------

  /** The word each event type is written as. */
  function TypeTag(kind: EventType): (tag: string)
    ensures |tag| > 0 && IsFieldText(tag)
  {
    match kind
    case Press => "press"
    case Release => "release"
    case Axis => "axis"
    case Pov => "POV"
  }

  /** The event type a word stands for, if any. */
  function TypeOfTag(tag: string): (r: Option<EventType>)
    ensures r.Some? ==> TypeTag(r.value) == tag
  {
    if tag == "press" then Some(Press)
    else if tag == "release" then Some(Release)
    else if tag == "axis" then Some(Axis)
    else if tag == "POV" then Some(Pov)
    else None
  }

  /** The tag of every type reads back as that type, so distinct types have distinct tags. */
  lemma TypeTagRoundTrip(kind: EventType)
    ensures TypeOfTag(TypeTag(kind)) == Some(kind)
  {
  }

  lemma TypeTagInjective(a: EventType, b: EventType)
    ensures TypeTag(a) == TypeTag(b) <==> a == b
  {
  }

  /** `String.valueOf(Object)` on the boxed value: "null" when there is none. */
  function ValueText(v: Option<JavaDouble>, show: JavaDouble -> string): (s: string)
    ensures v.None? ==> s == "null"
    ensures IsValueFormat(show) ==> IsFieldText(s)
  {
    match v
    case None => "null"
    case Some(d) => show(d)
  }

  /** Text that cannot be mistaken for a field boundary or a line end. */
  predicate IsFieldText(s: string)
  {
    ':' !in s && ',' !in s && '\n' !in s
  }

  /** `String.valueOf(double)` never yields a separator ("1.5", "-2.0E-4", "NaN", "Infinity"). */
  ghost predicate IsValueFormat(show: JavaDouble -> string)
  {
    forall d :: IsFieldText(show(d))
  }

  /** What can be read back from a serialised line: the value only as text, and only for Axis events. */
  datatype LineFields = LineFields(
    time: Int64,
    eventType: EventType,
    stickId: Int32,
    id: Int32,
    valueText: Option<string>)

  /** The fields a serialised event carries. */
  function FieldsOf(e: JoystickEvent, show: JavaDouble -> string): LineFields
  {
    LineFields(e.time, e.eventType, e.stickId, e.id,
               if e.eventType == Axis then Some(ValueText(e.val, show)) else None)
  }

  /**
    Reads a serialised line back: split off the time at ':', split the rest
    at ',', recover the type from its tag and the numbers from their digits.
   */
  function ParseLine(line: string): (r: Option<LineFields>)
    ensures r.Some? ==> (r.value.eventType == Axis <==> r.value.valueText.Some?)
  {
    if |line| == 0 || line[|line| - 1] != '\n' then None
    else
      var halves := Split(line[..|line| - 1], ':');
      if |halves| != 2 then None
      else
        var parts := Split(halves[1], ',');
        var kind := TypeOfTag(parts[0]);
        var arity := if kind == Some(Axis) then 5 else 4;
        if kind.None? || |parts| != arity || parts[arity - 1] != "" then None
        else
          match (ParseDecimal(halves[0]), ParseDecimal(parts[1]), ParseDecimal(parts[2]))
          case (Some(t), Some(s), Some(i)) =>
            if IsInt64(t) && IsInt32(s) && IsInt32(i) then
              Some(LineFields(t, kind.value, s, i, if kind.value == Axis then Some(parts[3]) else None))
            else None
          case _ => None
  }

  lemma DecimalIsFieldText(i: int)
    ensures IsFieldText(Decimal(i))
  {
  }

  /** The comma-separated fields after the time stamp, the last one empty. */
  function BodyFields(e: JoystickEvent, show: JavaDouble -> string): seq<string>
  {
    var front := [TypeTag(e.eventType), Decimal(e.stickId), Decimal(e.id)];
    if e.eventType == Axis then front + [ValueText(e.val, show), ""] else front + [""]
  }

  /** The comma-separated fields joined: the tag, stick and id each followed by ',', then the value part. */
  lemma BodyJoin(e: JoystickEvent, show: JavaDouble -> string)
    ensures Join(BodyFields(e, show), ',')
         == TypeTag(e.eventType) + "," + (Decimal(e.stickId) + "," + (Decimal(e.id) + ","
            + (if e.eventType == Axis then ValueText(e.val, show) + "," else "")))
  {
    var fields := BodyFields(e, show);
    var valuePart := if e.eventType == Axis then ValueText(e.val, show) + "," else "";
    if e.eventType == Axis {
      assert Join(fields[4..], ',') == "";
      assert Join(fields[3..], ',') == ValueText(e.val, show) + "," + "";
    } else {
      assert Join(fields[3..], ',') == "";
    }
    assert Join(fields[3..], ',') == valuePart;
    assert Join(fields[2..], ',') == Decimal(e.id) + "," + valuePart;
    assert Join(fields[1..], ',') == Decimal(e.stickId) + "," + (Decimal(e.id) + "," + valuePart);
  }

  /** Regrouping the concatenation toString performs left to right. */
  lemma Regroup(t: string, tag: string, sid: string, iid: string, vp: string)
    ensures t + ":" + tag + "," + sid + "," + iid + "," + vp + "\n"
         == t + ":" + (tag + "," + (sid + "," + (iid + "," + vp))) + "\n"
  {
  }

  lemma ToStringShape(e: JoystickEvent, show: JavaDouble -> string)
    ensures e.ToString(show) == Join([Decimal(e.time), Join(BodyFields(e, show), ',')], ':') + "\n"
  {
    var valuePart := if e.eventType == Axis then ValueText(e.val, show) + "," else "";
    var rest := Join(BodyFields(e, show), ',');
    BodyJoin(e, show);
    Regroup(Decimal(e.time), TypeTag(e.eventType), Decimal(e.stickId), Decimal(e.id), valuePart);
    assert Join([Decimal(e.time), rest], ':') == Decimal(e.time) + ":" + rest;
  }

  lemma BodyFieldsAreClean(e: JoystickEvent, show: JavaDouble -> string)
    requires IsValueFormat(show)
    ensures forall k :: 0 <= k < |BodyFields(e, show)| ==> IsFieldText(BodyFields(e, show)[k])
  {
  }

  /**
    Reading back a serialised event recovers its time, type, stick, id and,
    for an Axis event, the text of its value.
   */
  lemma {:induction false} ParseToString(e: JoystickEvent, show: JavaDouble -> string)
    requires IsValueFormat(show)
    ensures ParseLine(e.ToString(show)) == Some(FieldsOf(e, show))
  {
    var t := Decimal(e.time);
    var fields := BodyFields(e, show);
    var rest := Join(fields, ',');
    var line := e.ToString(show);
    ToStringShape(e, show);
    BodyFieldsAreClean(e, show);
    JoinAvoids(fields, ',', ':');
    DecimalIsFieldText(e.time);
    assert line[..|line| - 1] == Join([t, rest], ':');
    SplitJoin([t, rest], ':');
    SplitJoin(fields, ',');
    DecimalRoundTrip(e.time);
    DecimalRoundTrip(e.stickId);
    DecimalRoundTrip(e.id);
    TypeTagRoundTrip(e.eventType);
  }

  /** A character found in no piece and different from the separator is not in the joined text. */
  lemma {:induction false} JoinAvoids(parts: seq<string>, sep: char, c: char)
    requires |parts| >= 1 && c != sep
    requires forall k :: 0 <= k < |parts| ==> c !in parts[k]
    ensures c !in Join(parts, sep)
    decreases |parts|
  {
    if |parts| > 1 {
      JoinAvoids(parts[1..], sep, c);
    }
  }

  /** Two events that serialise to the same line agree on time, type, stick and id. */
  lemma SameLineSameFields(a: JoystickEvent, b: JoystickEvent, show: JavaDouble -> string)
    requires IsValueFormat(show)
    requires a.ToString(show) == b.ToString(show)
    ensures a.time == b.time && a.eventType == b.eventType && a.stickId == b.stickId && a.id == b.id
  {
    ParseToString(a, show);
    ParseToString(b, show);
  }

  // ---------------------------------------------------------------------
  // equals and hashCode
  // ---------------------------------------------------------------------

  /** hashCode never looks at the time stamp. */
  lemma HashIgnoresTime(e: JoystickEvent, t: Int64, typeHash: EventType -> Int32)
    ensures e.(time := t).HashCode(typeHash) == e.HashCode(typeHash)
  {
  }

  /** Equal events have equal hash codes, whatever hash the enum constants get. */
  lemma EqualsImpliesSameHash(a: JoystickEvent, b: JoystickEvent, typeHash: EventType -> Int32)
    requires a.Equals(Some(b))
    ensures a.HashCode(typeHash) == b.HashCode(typeHash)
  {
  }

  /**
    equals, unlike hashCode, compares time: the same button press at two
    different times hashes alike yet is not equal.
   */
  lemma TimeSeparatesEqualsNotHash(e: JoystickEvent, t: Int64, typeHash: EventType -> Int32)
    requires t != e.time
    ensures e.(time := t).HashCode(typeHash) == e.HashCode(typeHash)
    ensures !e.Equals(Some(e.(time := t)))
  {
  }

  /** equals is false for null and true for the event itself. */
  lemma EqualsNullAndSelf(e: JoystickEvent)
    ensures !e.Equals(None)
    ensures e.Equals(Some(e))
  {
  }

  /** Exactly one of getID and getPOVValue is non-null, and it carries the id field. */
  lemma ExactlyOneAccessor(e: JoystickEvent)
    ensures e.GetID().Some? != e.GetPOVValue().Some?
    ensures (if e.eventType == Pov then e.GetPOVValue() else e.GetID()) == Some(e.id)
  {
  }
}
