/** The Rust `JsValue` type: decoding the text that the engines send back
    for an evaluated script (`from_string`), rendering a value as
    JavaScript source (`Display`), and the string escaping that rendering
    a string uses. */
module JavaScript {
  import opened Wrappers
  import opened Strings

  /** A JavaScript value. `Number` keeps the literal it was read from (the
      arbitrary-precision float behind it is not modelled), and `Object`
      keeps its entries as an association list with distinct keys. */
  datatype JsValue =
    | Array(items: seq<JsValue>)
    | Boolean(b: bool)
    | Null
    | Number(literal: string)
    | Object(entries: seq<Entry>)
    | String(s: string)
    | Undefined
    | Other(code: string)

  datatype Entry = Entry(key: string, value: JsValue)

  // ---------------------------------------------------------------------
  // Objects as association lists (the source's `HashMap<String, JsValue>`)

  function Keys(entries: seq<Entry>): set<string> {
    set i | 0 <= i < |entries| :: entries[i].key
  }

  predicate DistinctKeys(entries: seq<Entry>) {
    forall i, j :: 0 <= i < j < |entries| ==> entries[i].key != entries[j].key
  }

  function Lookup(entries: seq<Entry>, key: string): (r: Option<JsValue>)
    ensures r.Some? <==> key in Keys(entries)
  {
    if |entries| == 0 then None
    else if entries[0].key == key then Some(entries[0].value)
    else
      var rest := Lookup(entries[1..], key);
      assert Keys(entries) == {entries[0].key} + Keys(entries[1..]) by {
        KeysCons(entries);
      }
      rest
  }

  lemma KeysCons(entries: seq<Entry>)
    requires |entries| > 0
    ensures Keys(entries) == {entries[0].key} + Keys(entries[1..])
  {
    forall k | k in Keys(entries) ensures k in {entries[0].key} + Keys(entries[1..]) {
      var i :| 0 <= i < |entries| && entries[i].key == k;
      if i > 0 {
        assert entries[1..][i - 1].key == k;
      }
    }
    forall k | k in Keys(entries[1..]) ensures k in Keys(entries) {
      var i :| 0 <= i < |entries[1..]| && entries[1..][i].key == k;
      assert entries[i + 1].key == k;
    }
  }

  /** `HashMap::insert`: the entry with the same key gets the new value,
      otherwise the pair is added at the end. */
  function Insert(entries: seq<Entry>, e: Entry): (r: seq<Entry>)
    ensures |r| == |entries| || |r| == |entries| + 1
  {
    if |entries| == 0 then [e]
    else if entries[0].key == e.key then [e] + entries[1..]
    else [entries[0]] + Insert(entries[1..], e)
  }

  /** A new key is added, an existing key gets the new value, every other
      key keeps its value, and keys stay distinct. */
  lemma {:induction false} InsertSpec(entries: seq<Entry>, e: Entry)
    ensures Keys(Insert(entries, e)) == Keys(entries) + {e.key}
    ensures Lookup(Insert(entries, e), e.key) == Some(e.value)
    ensures forall k :: k != e.key ==> Lookup(Insert(entries, e), k) == Lookup(entries, k)
    ensures DistinctKeys(entries) ==> DistinctKeys(Insert(entries, e))
    decreases |entries|
  {
    var r := Insert(entries, e);
    if |entries| == 0 {
      assert r[0] == e;
      assert Keys(r) == {e.key};
    } else if entries[0].key == e.key {
      assert r[1..] == entries[1..];
      KeysCons(entries);
      KeysCons(r);
    } else {
      var tail := Insert(entries[1..], e);
      InsertSpec(entries[1..], e);
      assert r[1..] == tail;
      KeysCons(entries);
      KeysCons(r);
      if DistinctKeys(entries) {
        assert DistinctKeys(entries[1..]);
        forall i | 0 <= i < |entries[1..]| ensures entries[1..][i].key != entries[0].key {
          assert entries[1..][i] == entries[i + 1];
        }
        assert entries[0].key !in Keys(entries[1..]);
        forall i, j | 0 <= i < j < |r| ensures r[i].key != r[j].key {
          if i == 0 {
            assert r[j].key == tail[j - 1].key;
            assert tail[j - 1].key in Keys(tail);
          } else {
            assert r[i] == tail[i - 1] && r[j] == tail[j - 1];
          }
        }
      }
    }
  }

  /** The map the object branch of `from_string` builds: the pairs are
      inserted in order and parts without a ':' (the `None`s) are skipped. */
  function InsertAll(entries: seq<Entry>, pairs: seq<Option<Entry>>): (r: seq<Entry>)
    requires DistinctKeys(entries)
    ensures DistinctKeys(r)
    decreases |pairs|
  {
    if |pairs| == 0 then entries
    else if pairs[0].None? then InsertAll(entries, pairs[1..])
    else
      InsertSpec(entries, pairs[0].value);
      InsertAll(Insert(entries, pairs[0].value), pairs[1..])
  }

  /** The keys written in `pairs`. */
  function PairKeys(pairs: seq<Option<Entry>>): set<string> {
    set i | 0 <= i < |pairs| && pairs[i].Some? :: pairs[i].value.key
  }

  /** The value the last pair with key `k` carries, if any. */
  function LastValue(pairs: seq<Option<Entry>>, k: string): Option<JsValue>
    decreases |pairs|
  {
    if |pairs| == 0 then None
    else
      var last := pairs[|pairs| - 1];
      if last.Some? && last.value.key == k then Some(last.value.value)
      else LastValue(pairs[..|pairs| - 1], k)
  }

  lemma PairKeysCons(pairs: seq<Option<Entry>>)
    requires |pairs| > 0
    ensures PairKeys(pairs) == (if pairs[0].Some? then {pairs[0].value.key} else {}) + PairKeys(pairs[1..])
  {
    forall k | k in PairKeys(pairs)
      ensures k in (if pairs[0].Some? then {pairs[0].value.key} else {}) + PairKeys(pairs[1..])
    {
      var i :| 0 <= i < |pairs| && pairs[i].Some? && pairs[i].value.key == k;
      if i > 0 {
        assert pairs[1..][i - 1] == pairs[i];
      }
    }
    forall k | k in PairKeys(pairs[1..]) ensures k in PairKeys(pairs) {
      var i :| 0 <= i < |pairs[1..]| && pairs[1..][i].Some? && pairs[1..][i].value.key == k;
      assert pairs[i + 1] == pairs[1..][i];
    }
  }

  /** Inserting pairs in order keeps exactly the keys seen. */
  lemma {:induction false} InsertAllKeys(entries: seq<Entry>, pairs: seq<Option<Entry>>)
    requires DistinctKeys(entries)
    ensures Keys(InsertAll(entries, pairs)) == Keys(entries) + PairKeys(pairs)
    decreases |pairs|
  {
    if |pairs| > 0 {
      PairKeysCons(pairs);
      if pairs[0].None? {
        InsertAllKeys(entries, pairs[1..]);
      } else {
        InsertSpec(entries, pairs[0].value);
        InsertAllKeys(Insert(entries, pairs[0].value), pairs[1..]);
      }
    }
  }

  lemma LastValueSnoc(pairs: seq<Option<Entry>>, p: Option<Entry>, k: string)
    ensures LastValue(pairs + [p], k)
         == if p.Some? && p.value.key == k then Some(p.value.value) else LastValue(pairs, k)
  {
    assert (pairs + [p])[..|pairs|] == pairs;
  }

  lemma {:induction false} LastValueCons(p: Option<Entry>, pairs: seq<Option<Entry>>, k: string)
    ensures LastValue([p] + pairs, k)
         == match LastValue(pairs, k)
              case Some(v) => Some(v)
              case None => if p.Some? && p.value.key == k then Some(p.value.value) else None
    decreases |pairs|
  {
    if |pairs| == 0 {
      assert ([p] + pairs)[..0] == [];
    } else {
      var front := pairs[..|pairs| - 1];
      var last := pairs[|pairs| - 1];
      assert pairs == front + [last];
      assert [p] + pairs == ([p] + front) + [last];
      LastValueSnoc([p] + front, last, k);
      LastValueSnoc(front, last, k);
      LastValueCons(p, front, k);
    }
  }

  /** A key that occurs several times keeps the value of its last pair. */
  lemma {:induction false} InsertAllLookup(entries: seq<Entry>, pairs: seq<Option<Entry>>, k: string)
    requires DistinctKeys(entries)
    ensures Lookup(InsertAll(entries, pairs), k)
         == match LastValue(pairs, k)
              case Some(v) => Some(v)
              case None => Lookup(entries, k)
    decreases |pairs|
  {
    if |pairs| > 0 {
      assert [pairs[0]] + pairs[1..] == pairs;
      LastValueCons(pairs[0], pairs[1..], k);
      if pairs[0].None? {
        InsertAllLookup(entries, pairs[1..], k);
      } else {
        InsertSpec(entries, pairs[0].value);
        InsertAllLookup(Insert(entries, pairs[0].value), pairs[1..], k);
      }
    }
  }

  // ---------------------------------------------------------------------
  // Decoding

  /** Stand-in for the syntax `BigFloat::from_str` accepts after a leading
      digit: digits, an optional fraction, an optional exponent. */
  predicate NumberSyntax(s: string) {
    exists i, j ::
      1 <= i <= j <= |s| &&
      AllDigits(s[..i]) &&
      FractionSyntax(s[i..j]) &&
      (j == |s| || ExponentSyntax(s[j..]))
  }

  /** Nothing, or '.' and at least one digit. */
  predicate FractionSyntax(s: string) {
    |s| == 0 || (s[0] == '.' && |s| >= 2 && AllDigits(s[1..]))
  }

  predicate AllDigits(s: string) {
    forall i :: 0 <= i < |s| ==> IsDigit(s[i])
  }

  predicate ExponentSyntax(s: string) {
    |s| >= 2 && (s[0] == 'e' || s[0] == 'E') &&
    (if s[1] == '+' || s[1] == '-' then |s| >= 3 && AllDigits(s[2..]) else AllDigits(s[1..]))
  }

  const NumberErrorPrefix: string := "unable to parse number: "

  predicate Enclosed(s: string, open: char, close: char) {
    |s| >= 2 && s[0] == open && s[|s| - 1] == close
  }

  function Inner(s: string): string
    requires |s| >= 2
  {
    s[1..|s| - 1]
  }

  /** `JsValue::from_string`, with the quoted-string branch guarded by
      `|s| >= 2` (see `QuotedSliceAsWritten` for the code as written). */
  function FromString(s: string): (r: JsValue)
    ensures |s| == 0 ==> r == Other("")
    ensures r == Null <==> s == "null"
    ensures r == Undefined <==> s == "undefined"
    ensures r == Boolean(true) <==> s == "true"
    ensures r == Boolean(false) <==> s == "false"
    ensures r.Number? <==> |s| > 0 && IsDigit(s[0]) && NumberSyntax(s)
    ensures r.Number? ==> r.literal == s
    ensures |s| > 0 && IsDigit(s[0]) && !NumberSyntax(s) ==> r == Other(NumberErrorPrefix + s)
    ensures r.String? <==> |s| > 0 && !IsDigit(s[0]) && Enclosed(s, '"', '"')
    ensures r.String? ==> s == "\"" + r.s + "\""
    ensures r.Array? <==> Enclosed(s, '[', ']')
    ensures r.Object? <==> Enclosed(s, '{', '}')
    ensures r.Object? ==> DistinctKeys(r.entries)
    decreases |s|
  {
    if |s| == 0 then Other("")
    else if IsDigit(s[0]) then
      if NumberSyntax(s) then Number(s) else Other(NumberErrorPrefix + s)
    else if s == "null" then Null
    else if s == "undefined" then Undefined
    else if s == "true" then Boolean(true)
    else if s == "false" then Boolean(false)
    else if Enclosed(s, '"', '"') then
      assert "\"" + Inner(s) + "\"" == s;
      String(Inner(s))
    else if Enclosed(s, '[', ']') then
      var parts := Split(Inner(s), ',');
      Array(seq(|parts|, i requires 0 <= i < |parts| => FromString(parts[i])))
    else if Enclosed(s, '{', '}') then
      var parts := Split(Inner(s), ',');
      Object(InsertAll([], seq(|parts|, i requires 0 <= i < |parts| => ParsePair(parts[i], s))))
    else Other(s)
  }

  /** One `key:value` part of an object: the key is the text before the
      first ':', the value is the rest, decoded. Parts without ':' give
      `None`. `whole` only bounds the recursion. */
  function ParsePair(part: string, whole: string): (r: Option<Entry>)
    requires |part| < |whole|
    ensures r.None? <==> ':' !in part
    ensures r.Some? ==> r.value.key + [':'] + SplitOnce(part, ':').value.1 == part
    decreases |whole|, 0
  {
    match SplitOnce(part, ':')
    case None => None
    case Some((key, value)) => Some(Entry(key, FromString(value)))
  }

  /** `[…]`: the inner text is split on every ',' and each part decoded. */
  lemma ArrayParts(s: string)
    requires Enclosed(s, '[', ']')
    ensures var parts := Split(Inner(s), ',');
      FromString(s) == Array(seq(|parts|, i requires 0 <= i < |parts| => FromString(parts[i])))
  {
  }

  /** `{…}`: the keys are exactly the text before the first ':' of the
      parts that have one, and a repeated key keeps its last value. */
  lemma ObjectParts(s: string, k: string)
    requires Enclosed(s, '{', '}')
    ensures var parts := Split(Inner(s), ',');
      var pairs := seq(|parts|, i requires 0 <= i < |parts| => ParsePair(parts[i], s));
      && FromString(s) == Object(InsertAll([], pairs))
      && Keys(FromString(s).entries) == PairKeys(pairs)
      && Lookup(FromString(s).entries, k) == LastValue(pairs, k)
  {
    var parts := Split(Inner(s), ',');
    var pairs := seq(|parts|, i requires 0 <= i < |parts| => ParsePair(parts[i], s));
    InsertAllKeys([], pairs);
    InsertAllLookup([], pairs, k);
    assert Keys([]) == {};
  }

  /** Text that is not a number, keyword, quoted string, array or object
      is kept as `Other`. */
  lemma OtherText(s: string)
    requires |s| > 0 && !IsDigit(s[0])
    requires s !in {"null", "undefined", "true", "false"}
    requires !Enclosed(s, '"', '"') && !Enclosed(s, '[', ']') && !Enclosed(s, '{', '}')
    ensures FromString(s) == Other(s)
  {
  }

  /** The quoted-string branch as the source writes it: the slice
      `string[1..len-1]` is taken whenever the first and the last character
      are '"', which for the one-character text `"` is the range 1..0 and
      panics (`None` here). */
  function QuotedSliceAsWritten(s: string): (r: Option<string>)
    requires |s| >= 1 && s[0] == '"' && s[|s| - 1] == '"'
    ensures r.Some? <==> |s| >= 2
    ensures r.Some? ==> s == "\"" + r.value + "\""
  {
    if 1 <= |s| - 1 then
      assert s == "\"" + s[1..|s| - 1] + "\"";
      Some(s[1..|s| - 1])
    else None
  }

  /** The lone quote reaches the slice and panics in the source ... */
  lemma LoneQuotePanicsAsWritten()
    ensures QuotedSliceAsWritten("\"") == None
  {
  }

  /** ... while the guarded decoder keeps it as text. */
  lemma LoneQuoteIsOther()
    ensures FromString("\"") == Other("\"")
  {
    assert !Enclosed("\"", '"', '"');
    OtherText("\"");
  }

  /** "[]" is not the empty array: its one empty part decodes to `Other("")`. */
  lemma EmptyBracketsDecode()
    ensures FromString("[]") == Array([Other("")])
  {
    assert Inner("[]") == "";
    ArrayParts("[]");
  }

  // ---------------------------------------------------------------------
  // Escaping

  /** `UNESCAPED_CHARACTERS`, written in four parts. */
  const UnescapedCharacters: string :=
    " -_0123456789" + "abcdefghijklmnopqrstuvwxyz" + "ABCDEFGHIJKLMNOPQRSTUVWXYZ"
    + "!#$%&()*+,./:;<=>?@[]^`{|}~"

  /** Membership in `UnescapedCharacters` by character ranges: every
      printable ASCII character except '"', '\'' and '\\'. */
  predicate Unescaped(c: char) {
    ' ' <= c <= '~' && c != '"' && c != '\'' && c != '\\'
  }

  lemma UnescapedCharactersExactly(c: char)
    ensures c in UnescapedCharacters <==> Unescaped(c)
  {
    DigitsPart(c);
    LowerPart(c);
    UpperPart(c);
    PunctuationPart(c);
  }

  lemma DigitsPart(c: char)
    ensures c in " -_0123456789" <==> c == ' ' || c == '-' || c == '_' || '0' <= c <= '9'
  {
  }

  lemma LowerPart(c: char)
    ensures c in "abcdefghijklmnopqrstuvwxyz" <==> 'a' <= c <= 'z'
  {
  }

  lemma UpperPart(c: char)
    ensures c in "ABCDEFGHIJKLMNOPQRSTUVWXYZ" <==> 'A' <= c <= 'Z'
  {
  }

  lemma PunctuationPart(c: char)
    ensures c in "!#$%&()*+,./:;<=>?@[]^`{|}~"
      <==> (('!' <= c <= '/' && c != '"' && c != '\'' && c != '-') || (':' <= c <= '@')
            || c == '[' || c == ']' || c == '^' || c == '`' || ('{' <= c <= '~'))
  {
  }

  /** The escape sequence `escape_string` writes for a character outside
      `UnescapedCharacters`. */
  function EscapeChar(c: char): (r: string)
    ensures |r| >= 2 && r[0] == '\\'
  {
    if c == '\n' then "\\n"
    else if c == '\'' then "\\'"
    else if c == '"' then "\\\""
    else if c == '\r' then "\\r"
    else if c == '\t' then "\\t"
    else if c == '\U{8}' then "\\b"
    else if c == '\U{c}' then "\\f"
    else if c == '\U{b}' then "\\v"
    else if c == '\0' then "\\0"
    else if (c as int) < 256 then "\\x" + [HexDigit((c as int) / 16), HexDigit((c as int) % 16)]
    else "\\u{" + NatToHex(c as int) + "}"
  }

  /** What one character becomes in the escaped text. */
  function EscapePiece(c: char): (r: string)
    ensures Unescaped(c) ==> r == [c]
    ensures !Unescaped(c) ==> r == EscapeChar(c)
  {
    if Unescaped(c) then [c] else EscapeChar(c)
  }

  /** The escaped text of `s`, piece by piece. */
  function Escaped(s: string): string
    decreases |s|
  {
    if |s| == 0 then "" else Escaped(s[..|s| - 1]) + EscapePiece(s[|s| - 1])
  }

  /** The number of characters of `s` that need an escape. */
  function EscapeCount(s: string): nat
    decreases |s|
  {
    if |s| == 0 then 0
    else EscapeCount(s[..|s| - 1]) + (if Unescaped(s[|s| - 1]) then 0 else 1)
  }

  predicate AllUnescaped(s: string) {
    forall i :: 0 <= i < |s| ==> Unescaped(s[i])
  }

  lemma {:induction false} EscapeCountZero(s: string)
    ensures EscapeCount(s) == 0 <==> AllUnescaped(s)
    decreases |s|
  {
    if |s| > 0 {
      var front := s[..|s| - 1];
      EscapeCountZero(front);
      assert forall i :: 0 <= i < |front| ==> front[i] == s[i];
    }
  }

  /** Escaping grows the text by at least one character per escape. */
  lemma {:induction false} EscapedLength(s: string)
    ensures |Escaped(s)| >= |s| + EscapeCount(s)
    decreases |s|
  {
    if |s| > 0 {
      EscapedLength(s[..|s| - 1]);
    }
  }

  /** A text of unescaped characters escapes to itself. */
  lemma {:induction false} EscapedIdentity(s: string)
    requires AllUnescaped(s)
    ensures Escaped(s) == s
    decreases |s|
  {
    if |s| > 0 {
      var front := s[..|s| - 1];
      assert AllUnescaped(front) by {
        assert forall i :: 0 <= i < |front| ==> front[i] == s[i];
      }
      EscapedIdentity(front);
      assert front + [s[|s| - 1]] == s;
    }
  }

  /** Escaping changes nothing exactly when no character needs an escape. */
  lemma EscapedUnchangedIff(s: string)
    ensures Escaped(s) == s <==> AllUnescaped(s)
  {
    EscapeCountZero(s);
    EscapedLength(s);
    if AllUnescaped(s) {
      EscapedIdentity(s);
    }
  }

  /** `escape_string`: the loop over the characters with its `escaped`
      counter; when nothing was escaped the input itself is returned. */
  method EscapeString(s: string) returns (r: string)
    ensures r == Escaped(s)
    ensures AllUnescaped(s) ==> r == s
  {
    if |s| == 0 {
      return s;
    }
    var result := "";
    var escaped := 0;
    var i := 0;
    while i < |s|
      invariant 0 <= i <= |s|
      invariant result == Escaped(s[..i])
      invariant escaped == EscapeCount(s[..i])
    {
      var c := s[i];
      assert s[..i + 1][..i] == s[..i];
      UnescapedCharactersExactly(c);
      if c !in UnescapedCharacters {
        escaped := escaped + 1;
        result := result + EscapeChar(c);
      } else {
        result := result + [c];
      }
      i := i + 1;
    }
    assert s[..i] == s;
    if escaped == 0 {
      EscapeCountZero(s);
      EscapedIdentity(s);
      r := s;
    } else {
      r := result;
    }
    EscapedUnchangedIff(s);
  }

  lemma ControlEscapes()
    ensures EscapePiece('\r') == "\\r" && EscapePiece('\n') == "\\n" && EscapePiece('\t') == "\\t"
    ensures EscapePiece('\U{8}') == "\\b" && EscapePiece('\U{b}') == "\\v" && EscapePiece('\U{c}') == "\\f"
    ensures EscapePiece('\0') == "\\0"
  {
  }

  lemma HexEscapes()
    ensures EscapePiece('\U{7f}') == "\\x7f" && EscapePiece('\U{a9}') == "\\xa9"
  {
    assert HexDigit(7) == '7' && HexDigit(15) == 'f';
    assert HexDigit(10) == 'a' && HexDigit(9) == '9';
  }

  lemma UnicodeEscapes()
    ensures EscapePiece('\U{1234}') == "\\u{1234}" && EscapePiece('\U{2764}') == "\\u{2764}"
  {
    Escape1234();
    Escape2764();
  }

  lemma Escape1234()
    ensures EscapePiece('\U{1234}') == "\\u{1234}"
  {
    Hex1234();
    assert !Unescaped('\U{1234}');
    assert EscapeChar('\U{1234}') == "\\u{" + NatToHex(0x1234) + "}";
  }

  lemma Escape2764()
    ensures EscapePiece('\U{2764}') == "\\u{2764}"
  {
    Hex2764();
    assert !Unescaped('\U{2764}');
    assert EscapeChar('\U{2764}') == "\\u{" + NatToHex(0x2764) + "}";
  }

  lemma Hex1234()
    ensures NatToHex(0x1234) == "1234"
  {
    assert NatToHex(0x1) == "1";
    assert NatToHex(0x12) == NatToHex(0x1) + [HexDigit(2)];
    assert NatToHex(0x123) == NatToHex(0x12) + [HexDigit(3)];
    assert NatToHex(0x1234) == NatToHex(0x123) + [HexDigit(4)];
  }

  lemma Hex2764()
    ensures NatToHex(0x2764) == "2764"
  {
    assert NatToHex(0x2) == "2";
    assert NatToHex(0x27) == NatToHex(0x2) + [HexDigit(7)];
    assert NatToHex(0x276) == NatToHex(0x27) + [HexDigit(6)];
    assert NatToHex(0x2764) == NatToHex(0x276) + [HexDigit(4)];
  }

  lemma EscapedSnoc(a: string, c: char)
    ensures Escaped(a + [c]) == Escaped(a) + EscapePiece(c)
  {
    assert (a + [c])[..|a|] == a;
  }

  /** One more character of a text whose escaped form is known. */
  lemma EscapedStep(a: string, ea: string, c: char, ec: string)
    requires Escaped(a) == ea && EscapePiece(c) == ec
    ensures Escaped(a + [c]) == ea + ec
  {
    EscapedSnoc(a, c);
  }

  /** The pair pinned by the source's escaping test, one character at a
      time: `" test\r\n\t\x08\x0b\x0c\0\x7f\u{1234}❤©"` escapes to
      `" test\\r\\n\\t\\b\\v\\f\\0\\x7f\\u{1234}\\u{2764}\\xa9"`. */
  lemma EscapeTestVector()
    ensures Escaped(" test" + "\r" + "\n" + "\t" + "\U{8}" + "\U{b}" + "\U{c}" + "\0" + "\U{7f}" + "\U{1234}" + "\U{2764}" + "\U{a9}")
         == " test" + "\\r" + "\\n" + "\\t" + "\\b" + "\\v" + "\\f" + "\\0" + "\\x7f" + "\\u{1234}" + "\\u{2764}" + "\\xa9"
  {
    EscapedIdentity(" test");
    ControlEscapes();
    HexEscapes();
    UnicodeEscapes();
    EscapedStep(" test", " test", '\r', "\\r");
    EscapedStep(" test" + "\r", " test" + "\\r", '\n', "\\n");
    EscapedStep(" test" + "\r" + "\n", " test" + "\\r" + "\\n", '\t', "\\t");
    EscapedStep(" test" + "\r" + "\n" + "\t", " test" + "\\r" + "\\n" + "\\t", '\U{8}', "\\b");
    EscapedStep(" test" + "\r" + "\n" + "\t" + "\U{8}", " test" + "\\r" + "\\n" + "\\t" + "\\b", '\U{b}', "\\v");
    EscapedStep(" test" + "\r" + "\n" + "\t" + "\U{8}" + "\U{b}", " test" + "\\r" + "\\n" + "\\t" + "\\b" + "\\v", '\U{c}', "\\f");
    EscapedStep(" test" + "\r" + "\n" + "\t" + "\U{8}" + "\U{b}" + "\U{c}", " test" + "\\r" + "\\n" + "\\t" + "\\b" + "\\v" + "\\f", '\0', "\\0");
    EscapedStep(" test" + "\r" + "\n" + "\t" + "\U{8}" + "\U{b}" + "\U{c}" + "\0", " test" + "\\r" + "\\n" + "\\t" + "\\b" + "\\v" + "\\f" + "\\0", '\U{7f}', "\\x7f");
    EscapedStep(" test" + "\r" + "\n" + "\t" + "\U{8}" + "\U{b}" + "\U{c}" + "\0" + "\U{7f}", " test" + "\\r" + "\\n" + "\\t" + "\\b" + "\\v" + "\\f" + "\\0" + "\\x7f", '\U{1234}', "\\u{1234}");
    EscapedStep(" test" + "\r" + "\n" + "\t" + "\U{8}" + "\U{b}" + "\U{c}" + "\0" + "\U{7f}" + "\U{1234}", " test" + "\\r" + "\\n" + "\\t" + "\\b" + "\\v" + "\\f" + "\\0" + "\\x7f" + "\\u{1234}", '\U{2764}', "\\u{2764}");
    EscapedStep(" test" + "\r" + "\n" + "\t" + "\U{8}" + "\U{b}" + "\U{c}" + "\0" + "\U{7f}" + "\U{1234}" + "\U{2764}", " test" + "\\r" + "\\n" + "\\t" + "\\b" + "\\v" + "\\f" + "\\0" + "\\x7f" + "\\u{1234}" + "\\u{2764}", '\U{a9}', "\\xa9");
  }

  // ---------------------------------------------------------------------
  // Rendering

  /** `Display for JsValue`. Arrays, objects and strings are written
      between their own pair of delimiters, the empty array as "[]"; an
      object's entries are written back to back with no separator between
      them, as the source does. */
  function Display(v: JsValue): (r: string)
    ensures v.Array? ==> |r| >= 2 && r[0] == '[' && r[|r| - 1] == ']'
    ensures v.Array? && v.items == [] ==> r == "[]"
    ensures v.Object? ==> |r| >= 2 && r[0] == '{' && r[|r| - 1] == '}'
    ensures v.Object? && v.entries == [] ==> r == "{}"
    ensures v.String? ==> |r| >= 2 && r[0] == '"' && r[|r| - 1] == '"'
    decreases v
  {
    match v
    case Array(items) =>
      "[" + Join(seq(|items|, i requires 0 <= i < |items| => Display(items[i])), ',') + "]"
    case Boolean(b) => if b then "true" else "false"
    case Number(literal) => literal
    case Object(entries) => "{" + DisplayEntries(entries, v) + "}"
    case Null => "null"
    case String(s) => "\"" + Escaped(s) + "\""
    case Undefined => "undefined"
    case Other(code) => code
  }

  /** The entries of an object, each as its quoted key, ':' and its
      value: at least three characters apiece, starting with the first
      key's quote. */
  function DisplayEntries(entries: seq<Entry>, ghost whole: JsValue): (r: string)
    requires forall i :: 0 <= i < |entries| ==> entries[i] < whole
    ensures |r| >= 3 * |entries|
    ensures |entries| > 0 ==> r[0] == '"'
    ensures entries == [] ==> r == ""
    decreases whole, |entries|
  {
    if |entries| == 0 then ""
    else
      "\"" + entries[0].key + "\":" + Display(entries[0].value)
      + DisplayEntries(entries[1..], whole)
  }

  /** `to_string_unenclosed`: a string's own text, any other value rendered. */
  function ToStringUnenclosed(v: JsValue): (r: string)
    ensures v.String? ==> r == v.s
    ensures !v.String? ==> r == Display(v)
  {
    if v.String? then v.s else Display(v)
  }

  // ---------------------------------------------------------------------
  // Decoding what was rendered

  /** A value that survives rendering and decoding unchanged. */
  predicate RoundTrips(v: JsValue) {
    FromString(Display(v)) == v
  }

  lemma ScalarsRoundTrip()
    ensures RoundTrips(Null) && RoundTrips(Undefined)
    ensures RoundTrips(Boolean(true)) && RoundTrips(Boolean(false))
  {
  }

  /** A string comes back unchanged exactly when it needs no escape;
      otherwise it comes back as its escaped text. */
  lemma StringRoundTrip(s: string)
    ensures FromString(Display(String(s))) == String(Escaped(s))
    ensures RoundTrips(String(s)) <==> AllUnescaped(s)
  {
    var t := Display(String(s));
    assert Inner(t) == Escaped(s);
    EscapedUnchangedIff(s);
  }

  /** A number literal that starts with a digit comes back unchanged. */
  lemma NumberRoundTrip(literal: string)
    requires |literal| > 0 && IsDigit(literal[0]) && NumberSyntax(literal)
    ensures RoundTrips(Number(literal))
  {
  }

  /** A non-empty array whose items round-trip and render without ','
      round-trips. */
  lemma ArrayRoundTrip(items: seq<JsValue>)
    requires |items| > 0
    requires forall i :: 0 <= i < |items| ==> RoundTrips(items[i]) && ',' !in Display(items[i])
    ensures RoundTrips(Array(items))
  {
    var texts := seq(|items|, i requires 0 <= i < |items| => Display(items[i]));
    var t := Display(Array(items));
    assert t == "[" + Join(texts, ',') + "]";
    assert Inner(t) == Join(texts, ',');
    SplitJoin(texts, ',');
    ArrayParts(t);
    var parts := Split(Inner(t), ',');
    assert parts == texts;
    assert FromString(t).items == items;
  }

  /** The empty array does not round-trip (see `EmptyBracketsDecode`). */
  lemma EmptyArrayDoesNotRoundTrip()
    ensures !RoundTrips(Array([]))
  {
    assert Display(Array([])) == "[]";
    EmptyBracketsDecode();
  }
}
