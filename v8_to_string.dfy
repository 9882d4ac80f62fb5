/** The conversion of a V8 value into the text the renderer process sends
    back for an evaluated script (c/src/cef/v8_to_string.hpp), which the
    Rust side decodes with `JsValue::from_string`.

    A V8 number is modelled by its value when that value is an integer and
    otherwise by the text `std::to_string` prints for it: floating point is
    not modelled. Arrays are values apart; dates and functions are objects,
    as they are in V8, so `IsObject` holds for them. */
module V8ToString {
  import opened Wrappers
  import opened Strings
  import JavaScript

  datatype ObjectKind = PlainObject | DateObject | FunctionObject

  datatype V8Value =
    | Undefined
    | Null
    | Str(s: string)
    | Bool(b: bool)
    /** A number whose value is the integer `n`. */
    | Integer(n: int)
    /** Any other number, with what `std::to_string(double)` prints for it. */
    | Double(text: string)
    | Array(items: seq<V8Value>)
    /** An object with its own enumerable properties, in `GetKeys` order. */
    | Object(kind: ObjectKind, props: seq<Property>)
    /** A value of no kind the conversion tests for. */
    | Unsupported

  datatype Property = Property(key: string, value: V8Value)

  /** How the value of an object's i-th key is fetched: `GetValue(i)`, by
      the index, as the source does, or by the key, as it means to. */
  datatype Fetch = ByIndex | ByKey

  /** `IsInt`: a number that fits an `int32_t`. */
  predicate IsInt(v: V8Value) {
    v.Integer? && -0x8000_0000 <= v.n < 0x8000_0000
  }

  /** `IsUInt`: a number that fits a `uint32_t`. */
  predicate IsUInt(v: V8Value) {
    v.Integer? && 0 <= v.n < 0x1_0000_0000
  }

  /** `boolToString`. */
  function BoolToString(b: bool): (s: string)
    ensures s == "true" <==> b
    ensures s == "false" <==> !b
  {
    if b then "true" else "false"
  }

  /** `std::to_string` of a number whose value is an integer: the decimal
      digits for an `int` or `unsigned int`, and the `%f` form with six
      zero decimals for a `double`. */
  function IntegerText(n: int): (r: string)
    ensures 0 <= n < 0x1_0000_0000 ==> r == NatToDecimal(n)
    ensures n < 0 ==> |r| > 0 && r[0] == '-'
    ensures (n < -0x8000_0000 || 0x1_0000_0000 <= n) ==> |r| > 7 && r[|r| - 7..] == ".000000"
    ensures -0x8000_0000 <= n < 0x1_0000_0000 ==> '.' !in r
  {
    if -0x8000_0000 <= n < 0x8000_0000 then IntToDecimal(n)
    else if 0 <= n < 0x1_0000_0000 then NatToDecimal(n)
    else IntToDecimal(n) + ".000000"
  }

  /** The index of the first property with the key. */
  function FindKey(props: seq<Property>, key: string): (r: Option<nat>)
    ensures r.Some? ==> r.value < |props| && props[r.value].key == key
    ensures r.Some? ==> forall j :: 0 <= j < r.value ==> props[j].key != key
    ensures r.None? ==> forall j :: 0 <= j < |props| ==> props[j].key != key
  {
    if |props| == 0 then None
    else if props[0].key == key then Some(0)
    else match FindKey(props[1..], key)
      case Some(j) => Some(j + 1)
      case None => None
  }

  /** `convert`, with the value of an object's i-th key fetched as `fetch`
      says. `GetValue(i)` on an object reads the property named by the
      decimal digits of i, and `undefined` when there is none. */
  function Render(v: V8Value, fetch: Fetch): (r: string)
    ensures v.Array? ==> |r| >= 2 && r[0] == '[' && r[|r| - 1] == ']'
    ensures v.Object? ==> |r| >= 2 && r[0] == '{' && r[|r| - 1] == '}'
    ensures v.Str? ==> |r| >= 2 && r[0] == '"' && r[|r| - 1] == '"'
    ensures v.Integer? ==> r == IntegerText(v.n)
    decreases v, 1
  {
    match v
    case Undefined => "undefined"
    case Null => "null"
    case Str(s) => "\"" + s + "\""
    case Bool(b) => BoolToString(b)
    case Integer(n) => IntegerText(n)
    case Double(text) => text
    case Array(items) => "[" + ItemsText(items, |items|, v, fetch) + "]"
    case Object(_, props) => "{" + PropsText(props, |props|, v, fetch) + "}"
    case Unsupported => "unknown type"
  }

  /** The first n items rendered, with ',' between them. */
  function ItemsText(items: seq<V8Value>, n: nat, ghost whole: V8Value, fetch: Fetch): string
    requires n <= |items|
    requires forall i :: 0 <= i < |items| ==> items[i] < whole
    decreases whole, 0, n
  {
    if n == 0 then ""
    else ItemsText(items, n - 1, whole, fetch) + Separator(n - 1) + Render(items[n - 1], fetch)
  }

  /** What goes before the i-th piece of a list: a ',' after the first. */
  function Separator(i: nat): string
  {
    if i != 0 then "," else ""
  }

  /** Where `convert` takes the value of an object's i-th key from: the
      index of a property, or `None` for `undefined`. */
  function KeySource(props: seq<Property>, i: nat, fetch: Fetch): (r: Option<nat>)
    requires i < |props|
    ensures r.Some? ==> r.value < |props|
    ensures fetch == ByKey ==> r == Some(i)
  {
    match fetch
    case ByKey => Some(i)
    case ByIndex => FindKey(props, NatToDecimal(i))
  }

  /** The first n properties rendered as `key:value`, with ',' between them. */
  function PropsText(props: seq<Property>, n: nat, ghost whole: V8Value, fetch: Fetch): string
    requires n <= |props|
    requires forall i :: 0 <= i < |props| ==> props[i] < whole
    decreases whole, 0, n
  {
    if n == 0 then ""
    else PropsText(props, n - 1, whole, fetch) + Separator(n - 1) + props[n - 1].key + ":" + ValueText(props, n - 1, whole, fetch)
  }

  /** The text of the value `convert` renders for an object's i-th key. */
  function ValueText(props: seq<Property>, i: nat, ghost whole: V8Value, fetch: Fetch): string
    requires i < |props|
    requires forall k :: 0 <= k < |props| ==> props[k] < whole
    decreases whole, 0, 0
  {
    match KeySource(props, i, fetch)
    case Some(j) => assert props[j].value < props[j] < whole; Render(props[j].value, fetch)
    case None => "undefined"
  }

  /** `V8ToString::convert`: the tests in the source's order. */
  method Convert(v: V8Value, fetch: Fetch) returns (s: string)
    ensures s == Render(v, fetch)
    decreases v, 2
  {
    match v
    case Undefined => s := "undefined";
    case Null => s := "null";
    case Str(t) => s := "\"" + t + "\"";
    case Bool(b) => s := BoolToString(b);
    case Integer(n) => s := IntegerText(n);
    case Double(text) => s := text;
    case Array(items) =>
      var text := ConvertItems(items, v, fetch);
      s := "[" + text + "]";
    case Object(_, props) =>
      var text := ConvertProps(props, v, fetch);
      s := "{" + text + "}";
    case Unsupported => s := "unknown type";
  }

  /** The loop over an array's items. */
  method ConvertItems(items: seq<V8Value>, ghost whole: V8Value, fetch: Fetch) returns (text: string)
    requires forall i :: 0 <= i < |items| ==> items[i] < whole
    ensures text == ItemsText(items, |items|, whole, fetch)
    decreases whole, 1
  {
    text := "";
    var i := 0;
    while i < |items|
      invariant 0 <= i <= |items|
      invariant text == ItemsText(items, i, whole, fetch)
    {
      var item := Convert(items[i], fetch);
      text := text + Separator(i) + item;
      i := i + 1;
    }
  }

  /** The loop over an object's keys, each with the value `convert` fetches
      for it. */
  method ConvertProps(props: seq<Property>, ghost whole: V8Value, fetch: Fetch) returns (text: string)
    requires forall i :: 0 <= i < |props| ==> props[i] < whole
    ensures text == PropsText(props, |props|, whole, fetch)
    decreases whole, 1
  {
    text := "";
    var i := 0;
    while i < |props|
      invariant 0 <= i <= |props|
      invariant text == PropsText(props, i, whole, fetch)
    {
      var rendered := ConvertValue(props, i, whole, fetch);
      text := text + Separator(i) + props[i].key + ":" + rendered;
      i := i + 1;
    }
  }

  /** `convert(val->GetValue(i))`, with the value fetched as `fetch` says. */
  method ConvertValue(props: seq<Property>, i: nat, ghost whole: V8Value, fetch: Fetch) returns (rendered: string)
    requires i < |props|
    requires forall k :: 0 <= k < |props| ==> props[k] < whole
    ensures rendered == ValueText(props, i, whole, fetch)
    decreases whole, 0
  {
    var source := KeySource(props, i, fetch);
    if source.Some? {
      assert props[source.value].value < props[source.value] < whole;
      rendered := Convert(props[source.value].value, fetch);
    } else {
      rendered := "undefined";
    }
  }

  /** An array renders as its items' texts joined with ','. */
  lemma {:induction false} ItemsTextJoin(items: seq<V8Value>, n: nat, whole: V8Value, fetch: Fetch)
    requires n <= |items|
    requires forall i :: 0 <= i < |items| ==> items[i] < whole
    ensures ItemsText(items, n, whole, fetch) == Join(seq(n, i requires 0 <= i < n => Render(items[i], fetch)), ',')
    decreases n
  {
    if n > 1 {
      ItemsTextJoin(items, n - 1, whole, fetch);
      JoinSnoc(seq(n - 1, i requires 0 <= i < n - 1 => Render(items[i], fetch)), Render(items[n - 1], fetch));
      assert seq(n - 1, i requires 0 <= i < n - 1 => Render(items[i], fetch)) + [Render(items[n - 1], fetch)]
        == seq(n, i requires 0 <= i < n => Render(items[i], fetch));
    }
  }

  /** Joining one more piece puts a separator before it. */
  lemma {:induction false} JoinSnoc(parts: seq<string>, last: string)
    requires |parts| > 0
    ensures Join(parts + [last], ',') == Join(parts, ',') + "," + last
    decreases |parts|
  {
    if |parts| == 1 {
      assert (parts + [last])[1..] == [last];
    } else {
      assert (parts + [last])[1..] == parts[1..] + [last];
      JoinSnoc(parts[1..], last);
    }
  }

  /** The two fetches agree on an object whose i-th key is the decimal
      digits of i, as for an array-like object, when its values are not
      themselves arrays or objects. */
  lemma {:induction false} FetchesAgreeOnIndexKeys(props: seq<Property>, n: nat, whole: V8Value)
    requires n <= |props|
    requires forall i :: 0 <= i < |props| ==> props[i] < whole
    requires forall i :: 0 <= i < |props| ==> props[i].key == NatToDecimal(i)
    requires forall i :: 0 <= i < |props| ==> !props[i].value.Array? && !props[i].value.Object?
    ensures PropsText(props, n, whole, ByIndex) == PropsText(props, n, whole, ByKey)
    decreases n
  {
    if n > 0 {
      FetchesAgreeOnIndexKeys(props, n - 1, whole);
      ValueTextAgrees(props, n - 1, whole);
    }
  }

  /** On such an object the value of the i-th key renders the same under
      both fetches. */
  lemma ValueTextAgrees(props: seq<Property>, i: nat, whole: V8Value)
    requires i < |props|
    requires forall k :: 0 <= k < |props| ==> props[k] < whole
    requires forall k :: 0 <= k < |props| ==> props[k].key == NatToDecimal(k)
    requires !props[i].value.Array? && !props[i].value.Object?
    ensures ValueText(props, i, whole, ByIndex) == ValueText(props, i, whole, ByKey)
  {
    IndexKeyFound(props, i);
  }

  /** On such an object the i-th key is found at index i. */
  lemma IndexKeyFound(props: seq<Property>, i: nat)
    requires i < |props|
    requires forall k :: 0 <= k < |props| ==> props[k].key == NatToDecimal(k)
    ensures KeySource(props, i, ByIndex) == Some(i)
  {
    var r := FindKey(props, NatToDecimal(i));
    assert r.Some?;
    DecimalInjective(r.value, i);
  }

  /** The value of key "a" is fetched by index, as the source does: `{a:1}`
      renders with `undefined` in place of 1. */
  lemma ObjectByIndexAsWritten()
    ensures Render(Object(PlainObject, [Property("a", Integer(1))]), ByIndex) == "{a:undefined}"
  {
    var props := [Property("a", Integer(1))];
    var v := Object(PlainObject, props);
    assert NatToDecimal(0) == "0";
    assert FindKey(props, "0") == None;
    assert ValueText(props, 0, v, ByIndex) == "undefined";
    assert PropsText(props, 1, v, ByIndex) == "" + "" + "a" + ":" + "undefined";
  }

  /** Fetched by key, every property renders with its own value, so
      `{a:1}` renders as itself. */
  lemma ObjectByKey(props: seq<Property>, i: nat, whole: V8Value)
    requires i < |props|
    requires forall k :: 0 <= k < |props| ==> props[k] < whole
    ensures ValueText(props, i, whole, ByKey) == Render(props[i].value, ByKey)
    ensures Render(Object(PlainObject, [Property("a", Integer(1))]), ByKey) == "{a:1}"
  {
    var one := [Property("a", Integer(1))];
    var v := Object(PlainObject, one);
    assert ValueText(one, 0, v, ByKey) == "1";
    assert PropsText(one, 1, v, ByKey) == "" + "" + "a" + ":" + "1";
  }

  /** A date or a function is an object, so the object branch renders it;
      with no own properties it is "{}", and "date" or "function" is never
      produced. */
  lemma DatesAndFunctionsRenderAsObjects(kind: ObjectKind, fetch: Fetch)
    ensures Render(Object(kind, []), fetch) == "{}"
  {
  }

  /** What the Rust side decodes from the text: a string comes back as
      that string, whatever it holds (it is not escaped); null, undefined
      and booleans as themselves; a non-negative integer of an `int` or
      `unsigned int` as a number literal, and a negative one as `Other`. */
  lemma DecodedByFromString(s: string, b: bool, n: nat, m: int, fetch: Fetch)
    requires n < 0x1_0000_0000 && -0x8000_0000 <= m < 0
    ensures JavaScript.FromString(Render(Str(s), fetch)) == JavaScript.String(s)
    ensures JavaScript.FromString(Render(Null, fetch)) == JavaScript.Null
    ensures JavaScript.FromString(Render(Undefined, fetch)) == JavaScript.Undefined
    ensures JavaScript.FromString(Render(Bool(b), fetch)) == JavaScript.Boolean(b)
    ensures JavaScript.FromString(Render(Integer(n), fetch)) == JavaScript.Number(NatToDecimal(n))
    ensures JavaScript.FromString(Render(Integer(m), fetch)) == JavaScript.Other(IntToDecimal(m))
  {
    StringDecoded(s, fetch);
    ScalarsDecoded(b, fetch);
    NaturalDecoded(n, fetch);
    NegativeDecoded(m, fetch);
  }

  lemma StringDecoded(s: string, fetch: Fetch)
    ensures JavaScript.FromString(Render(Str(s), fetch)) == JavaScript.String(s)
  {
    var t := "\"" + s + "\"";
    assert t[0] == '"' && t[|t| - 1] == '"';
    assert JavaScript.Inner(t) == s;
  }

  lemma ScalarsDecoded(b: bool, fetch: Fetch)
    ensures JavaScript.FromString(Render(Null, fetch)) == JavaScript.Null
    ensures JavaScript.FromString(Render(Undefined, fetch)) == JavaScript.Undefined
    ensures JavaScript.FromString(Render(Bool(b), fetch)) == JavaScript.Boolean(b)
  {
  }

  lemma NaturalDecoded(n: nat, fetch: Fetch)
    requires n < 0x1_0000_0000
    ensures JavaScript.FromString(Render(Integer(n), fetch)) == JavaScript.Number(NatToDecimal(n))
  {
    DigitsAreNumber(NatToDecimal(n), |NatToDecimal(n)|);
  }

  lemma NegativeDecoded(m: int, fetch: Fetch)
    requires -0x8000_0000 <= m < 0
    ensures JavaScript.FromString(Render(Integer(m), fetch)) == JavaScript.Other(IntToDecimal(m))
  {
    var e := IntToDecimal(m);
    assert e[0] == '-';
    assert !JavaScript.Enclosed(e, '"', '"') && !JavaScript.Enclosed(e, '[', ']') && !JavaScript.Enclosed(e, '{', '}');
    JavaScript.OtherText(e);
  }

  /** A non-empty run of digits is a number literal. */
  lemma DigitsAreNumber(d: string, i: nat)
    requires 1 <= i == |d| && JavaScript.AllDigits(d)
    ensures JavaScript.NumberSyntax(d)
  {
    assert d[..i] == d;
    assert JavaScript.FractionSyntax(d[i..i]);
  }
}
