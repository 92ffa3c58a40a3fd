/** Canonical JSON: whatever the order in which an object's keys were inserted it has one encoding, and a decoder that
    undoes it. Every checksum, and so the hash chain of the mutation log, rests on this. */
module CanonicalJson {
  import opened Wrappers

  datatype Json =
    | Null | Bool(b: bool) | Number(n: int) | String(s: string) | Array(items: seq<Json>)
      | Object(fields: map<string, Json>)

  // ---- strings ----

  function HexDigit(n: nat): char
    requires n < 16
  {
    if n < 10 then ('0' as int + n) as char else ('a' as int + n - 10) as char
  }

  function HexValue(c: char): Option<nat> {
    if '0' <= c <= '9' then Some(c as int - '0' as int)
    else if 'a' <= c <= 'f' then Some(c as int - 'a' as int + 10)
    else None
  }

  /** Section 7 of RFC 8259, in the form of `JSON.stringify`. */
  function EscapeChar(c: char): (e: string)
    ensures e != "" && e[0] != '"' && '\n' !in e
  {
    if c == '"' then "\\\""
    else if c == '\\' then "\\\\"
    else if c == 8 as char then "\\b"
    else if c == '\t' then "\\t"
    else if c == '\n' then "\\n"
    else if c == 12 as char then "\\f"
    else if c == '\r' then "\\r"
    else if c < ' ' then "\\u00" + [HexDigit(c as int / 16), HexDigit(c as int % 16)]
    else [c]
  }

  function Escape(s: string): string {
    if s == "" then "" else EscapeChar(s[0]) + Escape(s[1..])
  }

  function Quote(s: string): string {
    "\"" + Escape(s) + "\""
  }

  /** One character of a string, escaped or not, and what follows it. */
  function UnescapeChar(s: string): (r: Option<(char, string)>)
    ensures r.Some? ==> |r.value.1| < |s|
  {
    if s == "" || s[0] < ' ' || s[0] == '"' then None
    else if s[0] != '\\' then Some((s[0], s[1..]))
    else if |s| < 2 then None
    else if s[1] == '"' || s[1] == '\\' then Some((s[1], s[2..]))
    else if s[1] == 'b' then Some((8 as char, s[2..]))
    else if s[1] == 't' then Some(('\t', s[2..]))
    else if s[1] == 'n' then Some(('\n', s[2..]))
    else if s[1] == 'f' then Some((12 as char, s[2..]))
    else if s[1] == 'r' then Some(('\r', s[2..]))
    else if |s| < 6 || s[1..4] != "u00" || HexValue(s[4]).None? || HexValue(s[5]).None? then None
    else Some(((16 * HexValue(s[4]).value + HexValue(s[5]).value) as char, s[6..]))
  }

  /** The characters up to the closing quote, and what follows it. */
  function ParseChars(s: string): (r: Option<(string, string)>)
    ensures r.Some? ==> |r.value.1| < |s|
    decreases |s|
  {
    if s == "" then None
    else if s[0] == '"' then Some(("", s[1..]))
    else match UnescapeChar(s)
      case None => None
      case Some((c, rest)) =>
        match ParseChars(rest)
        case None => None
        case Some((t, after)) => Some(([c] + t, after))
  }

  lemma UnescapeUndoesEscape(c: char, rest: string)
    ensures UnescapeChar(EscapeChar(c) + rest) == Some((c, rest))
  {
    var s := EscapeChar(c) + rest;
    assert s[|EscapeChar(c)|..] == rest;
    if c < ' ' && |EscapeChar(c)| == 6 {
      assert s[1..4] == "u00";
    }
  }

  lemma {:induction false} ParseCharsUndoesEscape(t: string, rest: string)
    ensures ParseChars(Escape(t) + "\"" + rest) == Some((t, rest))
  {
    hide UnescapeChar, EscapeChar;
    if t == "" {
      assert "" + "\"" + rest == "\"" + rest && ("\"" + rest)[1..] == rest;
    } else {
      var after := Escape(t[1..]) + "\"" + rest;
      assert Escape(t) + "\"" + rest == EscapeChar(t[0]) + after;
      UnescapeUndoesEscape(t[0], after);
      ParseCharsUndoesEscape(t[1..], rest);
      assert [t[0]] + t[1..] == t;
    }
  }

  /** Of all the ways to write a string, the escaped form is the shortest: nothing is escaped that need not be, and
      nothing at greater length. */
  lemma {:induction false} EscapeIsShortest(s: string)
    ensures ParseChars(s).Some? ==> |Escape(ParseChars(s).value.0)| + 1 + |ParseChars(s).value.1| <= |s|
    decreases |s|
  {
    if s != "" && s[0] != '"' && UnescapeChar(s).Some? {
      var c, rest := UnescapeChar(s).value.0, UnescapeChar(s).value.1;
      CharIsShortest(s);
      hide UnescapeChar, EscapeChar;
      EscapeIsShortest(rest);
      if ParseChars(rest).Some? {
        var t := ParseChars(rest).value.0;
        assert ([c] + t)[0] == c && ([c] + t)[1..] == t;
      }
    }
  }

  lemma CharIsShortest(s: string)
    requires UnescapeChar(s).Some?
    ensures |EscapeChar(UnescapeChar(s).value.0)| + |UnescapeChar(s).value.1| <= |s|
  {
  }

  // ---- numbers ----

  function Digits(n: nat): (d: string)
    ensures d != "" && '0' <= d[0] <= '9' && (d[0] == '0' ==> d == "0" && n == 0)
  {
    if n < 10 then [('0' as int + n) as char] else Digits(n / 10) + [('0' as int + n % 10) as char]
  }

  predicate IsDigit(c: char) {
    '0' <= c <= '9'
  }

  /** The digits at the front, read on from `n`, and what follows them. */
  function ParseDigits(s: string, n: nat): (r: (nat, string))
    ensures |r.1| <= |s|
  {
    if s == "" || !IsDigit(s[0]) then (n, s) else ParseDigits(s[1..], 10 * n + (s[0] as int - '0' as int))
  }

  lemma {:induction false} ParseDigitsUndoesDigits(n: nat, rest: string)
    ensures ParseDigits(Digits(n) + rest, 0) == ParseDigits(rest, n)
  {
    if n < 10 {
      assert (Digits(n) + rest)[1..] == rest;
    } else {
      var last := [('0' as int + n % 10) as char];
      ParseDigitsUndoesDigits(n / 10, last + rest);
      assert Digits(n) + rest == Digits(n / 10) + (last + rest);
      assert (last + rest)[1..] == rest;
    }
  }

  /** What can follow a value: nothing, or something that does not go on with a number. */
  predicate Ends(rest: string) {
    rest == "" || !IsDigit(rest[0])
  }

  // ---- the two key orders ----

  /** JavaScript compares strings by UTF-16 code units, Rust by the bytes of UTF-8. */
  datatype KeyOrder = CodeUnits | Bytes

  /** One character in UTF-16, or in UTF-8 (section 3 of RFC 3629). */
  function Code(order: KeyOrder, c: char): (units: seq<nat>)
    ensures units != []
  {
    var n: nat := c as int;
    match order
    case CodeUnits =>
      if n < 0x1_0000 then [n] else [0xD800 + (n - 0x1_0000) / 0x400, 0xDC00 + (n - 0x1_0000) % 0x400]
    case Bytes =>
      if n < 0x80 then [n]
      else if n < 0x800 then [0xC0 + n / 0x40, 0x80 + n % 0x40]
      else if n < 0x1_0000 then [0xE0 + n / 0x1000, 0x80 + n / 0x40 % 0x40, 0x80 + n % 0x40]
      else [0xF0 + n / 0x4_0000, 0x80 + n / 0x1000 % 0x40, 0x80 + n / 0x40 % 0x40, 0x80 + n % 0x40]
  }

  function Units(order: KeyOrder, s: string): seq<nat> {
    if s == "" then [] else Code(order, s[0]) + Units(order, s[1..])
  }

  predicate Before(a: seq<nat>, b: seq<nat>) {
    b != [] && (a == [] || a[0] < b[0] || (a[0] == b[0] && Before(a[1..], b[1..])))
  }

  predicate Precedes(order: KeyOrder, a: string, b: string) {
    Before(Units(order, a), Units(order, b))
  }

  /** How two characters compare: as numbers, but that UTF-16 puts those beyond its first plane before its last ones. */
  predicate CharPrecedes(order: KeyOrder, c: char, d: char) {
    var m, n := c as int, d as int;
    if order == Bytes || (m < 0x1_0000) == (n < 0x1_0000) then m < n
    else if m < 0x1_0000 then m < 0xE000
    else n >= 0xE000
  }

  lemma {:induction false} SameFirst(a: seq<nat>, b: seq<nat>, c: seq<nat>)
    ensures Before(c + a, c + b) == Before(a, b)
  {
    if c == [] {
      assert c + a == a && c + b == b;
    } else {
      SameFirst(a, b, c[1..]);
      assert (c + a)[1..] == c[1..] + a && (c + b)[1..] == c[1..] + b;
    }
  }

  /** The codes of different characters differ somewhere, and there they compare as the characters do. */
  lemma {:induction false} CodesCompare(order: KeyOrder, c: char, d: char, a: seq<nat>, b: seq<nat>)
    requires c != d
    ensures Before(Code(order, c) + a, Code(order, d) + b) == CharPrecedes(order, c, d)
  {
    var x, y := Code(order, c), Code(order, d);
    if x[0] != y[0] {
      FirstUnitsCompare(order, c, d);
    } else {
      SameLength(order, c, d);
      assert (x + a)[1..] == x[1..] + a && (y + b)[1..] == y[1..] + b;
      assert Before(x + a, y + b) == Before(x[1..] + a, y[1..] + b);
      LaterUnitsCompare(order, c, d, a, b);
    }
  }

  lemma FirstUnitsCompare(order: KeyOrder, c: char, d: char)
    requires Code(order, c)[0] != Code(order, d)[0]
    ensures Code(order, c)[0] < Code(order, d)[0] <==> CharPrecedes(order, c, d)
  {
  }

  lemma SameLength(order: KeyOrder, c: char, d: char)
    requires Code(order, c)[0] == Code(order, d)[0]
    ensures |Code(order, c)| == |Code(order, d)| && CharPrecedes(order, c, d) == (c < d)
  {
  }

  /** A number is its quotient and its remainder. */
  lemma Split(m: nat, n: nat, base: nat)
    requires base > 0
    ensures m < n <==> m / base < n / base || (m / base == n / base && m % base < n % base)
  {
    if m / base < n / base {
      assert m < base * (m / base + 1) <= base * (n / base) <= n;
    } else if n / base < m / base {
      assert n < base * (n / base + 1) <= base * (m / base) <= m;
    }
  }

  lemma SplitThree(m: nat, n: nat)
    requires m / 0x1000 == n / 0x1000
    ensures var x, y, u, v := m / 0x40 % 0x40, n / 0x40 % 0x40, m % 0x40, n % 0x40;
            m < n <==> x < y || (x == y && u < v)
  {
    Split(m, n, 0x40);
    Split(m / 0x40, n / 0x40, 0x40);
    assert m / 0x40 / 0x40 == m / 0x1000 && n / 0x40 / 0x40 == n / 0x1000;
  }

  lemma SplitFour(m: nat, n: nat)
    requires m / 0x4_0000 == n / 0x4_0000
    ensures var w, z, x, y, u, v := m / 0x1000 % 0x40, n / 0x1000 % 0x40, m / 0x40 % 0x40, n / 0x40 % 0x40, m % 0x40,
            n % 0x40;
            m < n <==> w < z || (w == z && (x < y || (x == y && u < v)))
  {
    Split(m / 0x1000, n / 0x1000, 0x40);
    assert m / 0x1000 / 0x40 == m / 0x4_0000 && n / 0x1000 / 0x40 == n / 0x4_0000;
    if m / 0x1000 == n / 0x1000 {
      SplitThree(m, n);
    } else {
      Split(m, n, 0x1000);
    }
  }

  lemma {:induction false} TwoUnits(x: seq<nat>, y: seq<nat>, a: seq<nat>, b: seq<nat>)
    requires |x| == |y| == 2 && x[1] != y[1]
    ensures Before(x[1..] + a, y[1..] + b) == (x[1] < y[1])
  {
  }

  /** How the remaining units of two characters compare that begin with the same unit. */
  predicate TailPrecedes(x: seq<nat>, y: seq<nat>)
    requires |x| == |y| <= 4
  {
    if |x| <= 1 then false
    else if |x| == 2 then x[1] < y[1]
    else if |x| == 3 then x[1] < y[1] || (x[1] == y[1] && x[2] < y[2])
    else x[1] < y[1] || (x[1] == y[1] && (x[2] < y[2] || (x[2] == y[2] && x[3] < y[3])))
  }

  lemma TailsCompare(order: KeyOrder, c: char, d: char)
    requires Code(order, c)[0] == Code(order, d)[0] && |Code(order, c)| == |Code(order, d)| <= 4
    ensures TailPrecedes(Code(order, c), Code(order, d)) == (c < d)
  {
    var m, n := c as int, d as int;
    if |Code(order, c)| == 2 {
      if order == Bytes { Split(m, n, 0x40); } else { Split(m - 0x1_0000, n - 0x1_0000, 0x400); }
    } else if |Code(order, c)| == 3 {
      SplitThree(m, n);
    } else if |Code(order, c)| == 4 {
      SplitFour(m, n);
    }
  }

  lemma {:induction false} LaterUnitsCompare(order: KeyOrder, c: char, d: char, a: seq<nat>, b: seq<nat>)
    requires c != d && Code(order, c)[0] == Code(order, d)[0] && |Code(order, c)| == |Code(order, d)|
    ensures Before(Code(order, c)[1..] + a, Code(order, d)[1..] + b) == (c < d)
  {
    var x, y := Code(order, c), Code(order, d);
    assert |x| <= 4;
    hide Before, Code;
    TailsCompare(order, c, d);
    TailsCompare(order, d, c);
    if |x| == 2 {
      TwoUnits(x, y, a, b);
    } else if |x| == 3 {
      ThreeUnits(x, y, a, b);
    } else if |x| == 4 {
      FourUnits(x, y, a, b);
    }
  }

  lemma {:induction false} ThreeUnits(x: seq<nat>, y: seq<nat>, a: seq<nat>, b: seq<nat>)
    requires |x| == |y| == 3 && (x[1] != y[1] || x[2] != y[2])
    ensures Before(x[1..] + a, y[1..] + b) == (x[1] < y[1] || (x[1] == y[1] && x[2] < y[2]))
  {
    assert (x[1..] + a)[1..] == [x[2]] + a && (y[1..] + b)[1..] == [y[2]] + b;
    assert ([x[2]] + a)[0] == x[2] && ([y[2]] + b)[0] == y[2];
  }

  lemma {:induction false} FourUnits(x: seq<nat>, y: seq<nat>, a: seq<nat>, b: seq<nat>)
    requires |x| == |y| == 4 && (x[1] != y[1] || x[2] != y[2] || x[3] != y[3])
    ensures Before(x[1..] + a, y[1..] + b) ==
            (x[1] < y[1] || (x[1] == y[1] && (x[2] < y[2] || (x[2] == y[2] && x[3] < y[3]))))
  {
    assert (x[1..] + a)[1..] == x[2..] + a && (y[1..] + b)[1..] == y[2..] + b;
    if x[1] == y[1] && x[2] == y[2] {
      ThreeUnits(x[1..], y[1..], a, b);
    } else if x[1] == y[1] {
      assert (x[2..] + a)[0] == x[2] && (y[2..] + b)[0] == y[2];
    }
  }

  /** Strings compare at their first difference. */
  lemma PrecedesByChar(order: KeyOrder, a: string, b: string)
    ensures Precedes(order, a, b) <==>
            b != "" && (a == "" || if a[0] == b[0] then Precedes(order, a[1..], b[1..])
                        else CharPrecedes(order, a[0], b[0]))
  {
    if a != "" && b != "" {
      if a[0] == b[0] {
        SameFirst(Units(order, a[1..]), Units(order, b[1..]), Code(order, a[0]));
      } else {
        CodesCompare(order, a[0], b[0], Units(order, a[1..]), Units(order, b[1..]));
      }
    }
  }

  lemma {:induction false} PrecedesIsTotal(order: KeyOrder, a: string, b: string)
    ensures (Precedes(order, a, b) || Precedes(order, b, a)) == (a != b)
            && !(Precedes(order, a, b) && Precedes(order, b, a))
    decreases |a|
  {
    hide Precedes;
    PrecedesByChar(order, a, b);
    PrecedesByChar(order, b, a);
    if a != "" && b != "" && a[0] == b[0] {
      PrecedesIsTotal(order, a[1..], b[1..]);
      assert a == [a[0]] + a[1..] && b == [b[0]] + b[1..];
    }
  }

  lemma {:induction false} PrecedesIsTransitive(order: KeyOrder, a: string, b: string, c: string)
    requires Precedes(order, a, b) && Precedes(order, b, c)
    ensures Precedes(order, a, c)
    decreases |a|
  {
    hide Precedes;
    PrecedesByChar(order, a, b);
    PrecedesByChar(order, b, c);
    PrecedesByChar(order, a, c);
    if a != "" && a[0] == b[0] == c[0] {
      PrecedesIsTransitive(order, a[1..], b[1..], c[1..]);
    }
  }

  /** Put a key where it belongs. */
  function Insert(order: KeyOrder, p: string, keys: seq<string>): (inserted: seq<string>)
    ensures forall k :: k in inserted <==> k == p || k in keys
  {
    if keys == [] || !Precedes(order, keys[0], p) then [p] + keys
    else
      assert keys == [keys[0]] + keys[1..];
      [keys[0]] + Insert(order, p, keys[1..])
  }

  // ---- the encoder ----

  ghost predicate Ascending(order: KeyOrder, keys: seq<string>) {
    forall i, j :: 0 <= i < j < |keys| ==> Precedes(order, keys[i], keys[j])
  }

  ghost predicate Lists(order: KeyOrder, keys: seq<string>, s: set<string>) {
    Ascending(order, keys) && forall k :: k in keys <==> k in s
  }

  lemma TailLists(order: KeyOrder, a: seq<string>, s: set<string>)
    requires Lists(order, a, s) && a != []
    ensures Lists(order, a[1..], s - {a[0]})
  {
    PrecedesIsTotal(order, a[0], a[0]);
    assert forall j :: 0 < j < |a| ==> Precedes(order, a[0], a[j]) && a[j] != a[0];
    assert a == [a[0]] + a[1..];
    assert forall k :: k in a <==> k == a[0] || k in a[1..];
    assert forall k :: k in a[1..] ==> k != a[0];
  }

  lemma {:induction false} DistinctCount(order: KeyOrder, keys: seq<string>, s: set<string>)
    requires Lists(order, keys, s)
    ensures |keys| == |s|
    decreases |keys|
  {
    if keys != [] {
      TailLists(order, keys, s);
      DistinctCount(order, keys[1..], s - {keys[0]});
    }
  }

  /** There is only one ascending list of a set of keys. */
  lemma {:induction false} OneAscendingList(order: KeyOrder, a: seq<string>, b: seq<string>, s: set<string>)
    requires Lists(order, a, s) && Lists(order, b, s)
    ensures a == b
    decreases |a|
  {
    DistinctCount(order, a, s);
    DistinctCount(order, b, s);
    if a != [] {
      assert a[0] in b && b[0] in a;
      var i :| 0 <= i < |b| && b[i] == a[0];
      var j :| 0 <= j < |a| && a[j] == b[0];
      PrecedesIsTotal(order, a[0], b[0]);
      assert a[0] == b[0];
      TailLists(order, a, s);
      TailLists(order, b, s);
      OneAscendingList(order, a[1..], b[1..], s - {a[0]});
      assert a == [a[0]] + a[1..] && b == [b[0]] + b[1..];
    }
  }

  lemma {:induction false} StrictInsert(order: KeyOrder, p: string, keys: seq<string>)
    requires Ascending(order, keys) && p !in keys
    ensures Ascending(order, Insert(order, p, keys))
  {
    if keys != [] {
      assert keys == [keys[0]] + keys[1..];
      PrecedesIsTotal(order, keys[0], p);
      if !Precedes(order, keys[0], p) {
        forall j | 0 <= j < |keys|
          ensures Precedes(order, p, keys[j])
        {
          PrecedesIsTotal(order, p, keys[j]);
          if j > 0 {
            PrecedesIsTotal(order, keys[0], keys[j]);
            PrecedesIsTransitive(order, p, keys[0], keys[j]);
          }
        }
      } else {
        var rest := Insert(order, p, keys[1..]);
        StrictInsert(order, p, keys[1..]);
        assert forall j :: 0 <= j < |rest| ==> rest[j] in rest;
        assert forall q :: q in keys[1..] ==> Precedes(order, keys[0], q);
      }
    }
  }

  /** `Object.keys(value).sort()`: keys in whatever order they come. */
  method SortedKeys(order: KeyOrder, s: set<string>) returns (keys: seq<string>)
    ensures Lists(order, keys, s)
  {
    keys := [];
    var todo := s;
    while todo != {}
      invariant todo <= s && Lists(order, keys, s - todo)
    {
      var p :| p in todo;
      StrictInsert(order, p, keys);
      keys := Insert(order, p, keys);
      todo := todo - {p};
    }
  }

  lemma {:induction false} KeysCanBeListed(order: KeyOrder, s: set<string>)
    ensures exists keys :: Lists(order, keys, s)
    decreases |s|
  {
    if s == {} {
      assert Lists(order, [], s);
    } else {
      var p :| p in s;
      KeysCanBeListed(order, s - {p});
      var keys :| Lists(order, keys, s - {p});
      StrictInsert(order, p, keys);
      assert Lists(order, Insert(order, p, keys), s);
    }
  }

  ghost function Keys(order: KeyOrder, s: set<string>): (keys: seq<string>)
    ensures Lists(order, keys, s)
  {
    KeysCanBeListed(order, s);
    var keys :| Lists(order, keys, s);
    keys
  }

  /** `encodeJson`, with an object's keys in ascending order. */
  ghost function Encode(order: KeyOrder, v: Json): string
    decreases v, 0
  {
    match v
    case Null => "null"
    case Bool(b) => if b then "true" else "false"
    case Number(n) => if n < 0 then "-" + Digits(-n) else Digits(n)
    case String(s) => Quote(s)
    case Array(items) => "[" + EncodeItems(order, items) + "]"
    case Object(fields) => "{" + EncodeFields(order, v, Keys(order, fields.Keys)) + "}"
  }

  ghost function EncodeItems(order: KeyOrder, items: seq<Json>): string
    decreases items, 0
  {
    if items == [] then ""
    else if |items| == 1 then Encode(order, items[0])
    else Encode(order, items[0]) + "," + EncodeItems(order, items[1..])
  }

  ghost function EncodeFields(order: KeyOrder, v: Json, keys: seq<string>): string
    requires v.Object? && forall k :: k in keys ==> k in v.fields
    decreases v, 0, |keys|
  {
    if keys == [] then ""
    else
      var first := Quote(keys[0]) + ":" + Encode(order, v.fields[keys[0]]);
      if |keys| == 1 then first else first + "," + EncodeFields(order, v, keys[1..])
  }

  // ---- the decoder ----

  /** A value at the front, and what follows it. */
  function Parse(s: string): (r: Option<(Json, string)>)
    ensures r.Some? ==> |r.value.1| < |s|
    decreases |s|, 1
  {
    if s == "" then None
    else if s[0] == 'n' then if |s| >= 4 && s[..4] == "null" then Some((Null, s[4..])) else None
    else if s[0] == 't' then if |s| >= 4 && s[..4] == "true" then Some((Bool(true), s[4..])) else None
    else if s[0] == 'f' then if |s| >= 5 && s[..5] == "false" then Some((Bool(false), s[5..])) else None
    else if s[0] == '"' then
      match ParseChars(s[1..]) case None => None case Some((t, rest)) => Some((String(t), rest))
    else if s[0] == '-' then
      if |s| < 2 || !IsDigit(s[1]) then None else var (n, rest) := ParseDigits(s[1..], 0); Some((Number(0 - n), rest))
    else if IsDigit(s[0]) then
      var (n, rest) := ParseDigits(s[1..], s[0] as int - '0' as int); Some((Number(n), rest))
    else if s[0] == '[' then
      if |s| >= 2 && s[1] == ']' then Some((Array([]), s[2..]))
      else match ParseItems(s[1..]) case None => None case Some((items, rest)) => Some((Array(items), rest))
    else if s[0] == '{' then
      if |s| >= 2 && s[1] == '}' then Some((Object(map[]), s[2..]))
      else match ParseFields(s[1..]) case None => None case Some((fields, rest)) => Some((Object(fields), rest))
    else None
  }

  /** One or more items, and the closing bracket. */
  function ParseItems(s: string): (r: Option<(seq<Json>, string)>)
    ensures r.Some? ==> |r.value.1| < |s|
    decreases |s|, 2
  {
    match Parse(s)
    case None => None
    case Some((v, rest)) =>
      if rest == "" then None
      else if rest[0] == ']' then Some(([v], rest[1..]))
      else if rest[0] != ',' then None
      else match ParseItems(rest[1..])
        case None => None
        case Some((vs, after)) => Some(([v] + vs, after))
  }

  /** One or more fields, and the closing brace. */
  function ParseFields(s: string): (r: Option<(map<string, Json>, string)>)
    ensures r.Some? ==> |r.value.1| < |s|
    decreases |s|, 2
  {
    if s == "" || s[0] != '"' then None
    else match ParseChars(s[1..])
      case None => None
      case Some((k, rest)) =>
        if rest == "" || rest[0] != ':' then None
        else match Parse(rest[1..])
          case None => None
          case Some((v, after)) =>
            if after == "" then None
            else if after[0] == '}' then Some((map[k := v], after[1..]))
            else if after[0] != ',' then None
            else match ParseFields(after[1..])
              case None => None
              case Some((fields, end)) => Some((fields[k := v], end))
  }

  // ---- the decoder undoes the encoder ----

  /** The first character of an encoding decides what kind of value it is. */
  lemma {:induction false} FirstChar(order: KeyOrder, v: Json)
    ensures Encode(order, v) != ""
    ensures match v
            case Null => Encode(order, v)[0] == 'n'
            case Bool(b) => Encode(order, v)[0] == if b then 't' else 'f'
            case Number(n) => Encode(order, v)[0] == '-' || IsDigit(Encode(order, v)[0])
            case String(_) => Encode(order, v)[0] == '"'
            case Array(_) => Encode(order, v)[0] == '['
            case Object(_) => Encode(order, v)[0] == '{'
  {
  }

  lemma {:induction false} FirstDigitRead(s: string)
    requires s != "" && IsDigit(s[0])
    ensures ParseDigits(s, 0) == ParseDigits(s[1..], s[0] as int - '0' as int)
  {
  }

  lemma {:induction false} NoDigitsToRead(rest: string, n: nat)
    requires Ends(rest)
    ensures ParseDigits(rest, n) == (n, rest)
  {
  }

  lemma {:induction false} DigitsRead(n: nat, rest: string)
    requires Ends(rest)
    ensures var s := Digits(n) + rest;
            s != "" && IsDigit(s[0]) && ParseDigits(s, 0) == ParseDigits(s[1..], s[0] as int - '0' as int) == (n, rest)
  {
    hide ParseDigits, Digits;
    ParseDigitsUndoesDigits(n, rest);
    NoDigitsToRead(rest, n);
    FirstDigitRead(Digits(n) + rest);
  }

  lemma {:induction false} ParseNumber(order: KeyOrder, n: int, rest: string)
    requires Ends(rest)
    ensures Parse(Encode(order, Number(n)) + rest) == Some((Number(n), rest))
  {
    hide ParseChars, ParseItems, ParseFields, ParseDigits, Digits;
    var m: nat := if n < 0 then -n else n;
    var s := Digits(m) + rest;
    DigitsRead(m, rest);
    if n < 0 {
      assert "-" + Digits(m) + rest == "-" + s && ("-" + s)[1..] == s;
    }
  }

  lemma {:induction false} ParseQuoted(order: KeyOrder, t: string, rest: string)
    ensures Parse(Encode(order, String(t)) + rest) == Some((String(t), rest))
  {
    hide ParseChars, Escape;
    ParseCharsUndoesEscape(t, rest);
    assert (Quote(t) + rest)[1..] == Escape(t) + "\"" + rest;
  }

  lemma {:induction false} ParseWord(order: KeyOrder, v: Json, rest: string)
    requires v.Null? || v.Bool?
    ensures Parse(Encode(order, v) + rest) == Some((v, rest))
  {
    hide ParseChars, ParseDigits, Digits, Escape;
    var word := if v.Null? then "null" else if v.b then "true" else "false";
    assert (word + rest)[..|word|] == word && (word + rest)[|word|..] == rest;
  }

  lemma {:induction false} LastItem(s: string, v: Json, rest: string)
    requires Parse(s) == Some((v, "]" + rest))
    ensures ParseItems(s) == Some(([v], rest))
  {
    assert ("]" + rest)[1..] == rest;
  }

  lemma {:induction false} ItemBefore(s: string, v: Json, more: string, vs: seq<Json>, rest: string)
    requires Parse(s) == Some((v, "," + more)) && ParseItems(more) == Some((vs, rest))
    ensures ParseItems(s) == Some(([v] + vs, rest))
  {
    assert ("," + more)[1..] == more;
  }

  lemma {:induction false} LastField(s: string, k: string, value: string, v: Json, rest: string)
    requires s != "" && s[0] == '"' && ParseChars(s[1..]) == Some((k, ":" + value))
             && Parse(value) == Some((v, "}" + rest))
    ensures ParseFields(s) == Some((map[k := v], rest))
  {
    assert (":" + value)[1..] == value && ("}" + rest)[1..] == rest;
  }

  lemma {:induction false} FieldBefore(s: string, k: string, value: string, v: Json, more: string,
                                       fields: map<string, Json>, rest: string)
    requires s != "" && s[0] == '"' && ParseChars(s[1..]) == Some((k, ":" + value))
             && Parse(value) == Some((v, "," + more))
    requires ParseFields(more) == Some((fields, rest))
    ensures ParseFields(s) == Some((fields[k := v], rest))
  {
    assert (":" + value)[1..] == value && ("," + more)[1..] == more;
  }

  lemma {:induction false} OneItemEncoded(order: KeyOrder, items: seq<Json>, rest: string)
    requires |items| == 1
    ensures EncodeItems(order, items) + "]" + rest == Encode(order, items[0]) + ("]" + rest) && items == [items[0]]
  {
    hide Encode;
  }

  lemma Separated(first: string, others: string, close: string, rest: string)
    ensures first + "," + others + close + rest == first + ("," + (others + close + rest))
  {
  }

  lemma {:induction false} MoreItemsEncoded(order: KeyOrder, items: seq<Json>, rest: string)
    requires |items| > 1
    ensures EncodeItems(order, items) + "]" + rest ==
            Encode(order, items[0]) + ("," + (EncodeItems(order, items[1..]) + "]" + rest))
    ensures [items[0]] + items[1..] == items
  {
    assert EncodeItems(order, items) == Encode(order, items[0]) + "," + EncodeItems(order, items[1..]);
    hide Encode, EncodeItems;
    Separated(Encode(order, items[0]), EncodeItems(order, items[1..]), "]", rest);
  }

  lemma {:induction false} ParseEncodedItems(order: KeyOrder, items: seq<Json>, rest: string)
    requires items != []
    ensures ParseItems(EncodeItems(order, items) + "]" + rest) == Some((items, rest))
    decreases items, 0
  {
    hide Parse, ParseItems, Encode, EncodeItems;
    var s := EncodeItems(order, items) + "]" + rest;
    if |items| == 1 {
      OneItemEncoded(order, items, rest);
      ParseUndoesEncode(order, items[0], "]" + rest);
      LastItem(s, items[0], rest);
    } else {
      var more := EncodeItems(order, items[1..]) + "]" + rest;
      MoreItemsEncoded(order, items, rest);
      ParseUndoesEncode(order, items[0], "," + more);
      ParseEncodedItems(order, items[1..], rest);
      ItemBefore(s, items[0], more, items[1..], rest);
    }
  }

  function Restrict(m: map<string, Json>, keys: seq<string>): map<string, Json> {
    map k | k in keys && k in m :: m[k]
  }

  /** What the parser reads of a key. */
  lemma ParseKey(k: string, value: string)
    ensures var s := Quote(k) + ":" + value;
            s != "" && s[0] == '"' && ParseChars(s[1..]) == Some((k, ":" + value))
  {
    ParseCharsUndoesEscape(k, ":" + value);
    assert (Quote(k) + ":" + value)[1..] == Escape(k) + "\"" + (":" + value);
  }

  lemma {:induction false} OneFieldEncoded(order: KeyOrder, v: Json, keys: seq<string>, rest: string)
    requires v.Object? && |keys| == 1 && keys[0] in v.fields
    ensures EncodeFields(order, v, keys) + "}" + rest ==
            Quote(keys[0]) + ":" + (Encode(order, v.fields[keys[0]]) + ("}" + rest))
    ensures Restrict(v.fields, keys) == map[keys[0] := v.fields[keys[0]]]
  {
    hide Encode, Quote;
  }

  lemma {:induction false} MoreFieldsEncoded(order: KeyOrder, v: Json, keys: seq<string>, rest: string)
    requires v.Object? && |keys| > 1 && forall k :: k in keys ==> k in v.fields
    ensures EncodeFields(order, v, keys) + "}" + rest ==
            Quote(keys[0]) + ":"
              + (Encode(order, v.fields[keys[0]]) + ("," + (EncodeFields(order, v, keys[1..]) + "}" + rest)))
    ensures Restrict(v.fields, keys) == Restrict(v.fields, keys[1..])[keys[0] := v.fields[keys[0]]]
  {
    assert EncodeFields(order, v, keys) ==
           Quote(keys[0]) + ":" + Encode(order, v.fields[keys[0]]) + "," + EncodeFields(order, v, keys[1..]);
    hide Encode, EncodeFields, Quote;
    Separated(Quote(keys[0]) + ":" + Encode(order, v.fields[keys[0]]), EncodeFields(order, v, keys[1..]), "}", rest);
    KeyFirst(Quote(keys[0]), Encode(order, v.fields[keys[0]]), "," + (EncodeFields(order, v, keys[1..]) + "}" + rest));
  }

  lemma KeyFirst(key: string, value: string, more: string)
    ensures key + ":" + value + more == key + ":" + (value + more)
  {
  }

  lemma {:induction false} ParseEncodedFields(order: KeyOrder, v: Json, keys: seq<string>, rest: string)
    requires v.Object? && keys != [] && forall k :: k in keys ==> k in v.fields
    ensures ParseFields(EncodeFields(order, v, keys) + "}" + rest) == Some((Restrict(v.fields, keys), rest))
    decreases v, 0, |keys|
  {
    hide Parse, ParseFields, ParseChars, Encode, EncodeFields, Quote, Restrict;
    var k, s := keys[0], EncodeFields(order, v, keys) + "}" + rest;
    var x := v.fields[k];
    if |keys| == 1 {
      var value := Encode(order, x) + ("}" + rest);
      OneFieldEncoded(order, v, keys, rest);
      ParseUndoesEncode(order, x, "}" + rest);
      ParseKey(k, value);
      LastField(s, k, value, x, rest);
    } else {
      var more := EncodeFields(order, v, keys[1..]) + "}" + rest;
      var value := Encode(order, x) + ("," + more);
      MoreFieldsEncoded(order, v, keys, rest);
      ParseUndoesEncode(order, x, "," + more);
      ParseKey(k, value);
      ParseEncodedFields(order, v, keys[1..], rest);
      FieldBefore(s, k, value, x, more, Restrict(v.fields, keys[1..]), rest);
    }
  }

  lemma {:induction false} ParseArray(inner: string, items: seq<Json>, rest: string)
    requires inner != "" && inner[0] != ']' && ParseItems(inner) == Some((items, rest))
    ensures Parse("[" + inner) == Some((Array(items), rest))
  {
    assert ("[" + inner)[1..] == inner;
  }

  lemma {:induction false} ParseObject(inner: string, fields: map<string, Json>, rest: string)
    requires inner != "" && inner[0] != '}' && ParseFields(inner) == Some((fields, rest))
    ensures Parse("{" + inner) == Some((Object(fields), rest))
  {
    assert ("{" + inner)[1..] == inner;
  }

  lemma {:induction false} ItemsStart(order: KeyOrder, items: seq<Json>)
    requires items != []
    ensures EncodeItems(order, items) != "" && EncodeItems(order, items)[0] != ']'
  {
    FirstChar(order, items[0]);
  }

  lemma {:induction false} EmptyArray(rest: string)
    ensures Parse("[]" + rest) == Some((Array([]), rest))
  {
    assert ("[]" + rest)[2..] == rest;
  }

  lemma {:induction false} ArrayEncoded(order: KeyOrder, items: seq<Json>, rest: string)
    ensures Encode(order, Array(items)) + rest == "[" + (EncodeItems(order, items) + "]" + rest)
    ensures items == [] ==> Encode(order, Array(items)) == "[]"
  {
    assert Encode(order, Array(items)) == "[" + EncodeItems(order, items) + "]";
  }

  lemma {:induction false} ParseEncodedArray(order: KeyOrder, items: seq<Json>, rest: string)
    requires Ends(rest)
    ensures Parse(Encode(order, Array(items)) + rest) == Some((Array(items), rest))
    decreases Array(items), 0
  {
    hide Parse, ParseItems, Encode, EncodeItems;
    ArrayEncoded(order, items, rest);
    if items == [] {
      EmptyArray(rest);
    } else {
      ItemsStart(order, items);
      ParseEncodedItems(order, items, rest);
      ParseArray(EncodeItems(order, items) + "]" + rest, items, rest);
    }
  }

  /** Decoding gives back every value, whatever follows its encoding, if only that does not go on with a number. */
  lemma {:induction false} ParseUndoesEncode(order: KeyOrder, v: Json, rest: string)
    requires Ends(rest)
    ensures Parse(Encode(order, v) + rest) == Some((v, rest))
    decreases v, 1
  {
    match v
    case Array(items) => ParseEncodedArray(order, items, rest);
    case Object(fields) => ParseEncodedObject(order, v, rest);
    case Number(n) => ParseNumber(order, n, rest);
    case String(t) => ParseQuoted(order, t, rest);
    case _ => ParseWord(order, v, rest);
  }

  lemma AllKeysRestrict(order: KeyOrder, fields: map<string, Json>, keys: seq<string>)
    requires Lists(order, keys, fields.Keys)
    ensures Restrict(fields, keys) == fields && (keys == [] ==> fields == map[])
  {
    hide Ascending;
    assert forall k :: k in fields <==> k in keys;
  }

  lemma {:induction false} EmptyObject(rest: string)
    ensures Parse("{}" + rest) == Some((Object(map[]), rest))
  {
    assert ("{}" + rest)[2..] == rest;
  }

  lemma {:induction false} FieldsStart(order: KeyOrder, v: Json, keys: seq<string>)
    requires v.Object? && keys != [] && forall k :: k in keys ==> k in v.fields
    ensures EncodeFields(order, v, keys) != "" && EncodeFields(order, v, keys)[0] == '"'
  {
    hide Encode, Escape;
  }

  lemma {:induction false} ParseEncodedObject(order: KeyOrder, v: Json, rest: string)
    requires v.Object? && Ends(rest)
    ensures Parse(Encode(order, v) + rest) == Some((v, rest))
    decreases v, 0, |v.fields| + 1
  {
    var keys := Keys(order, v.fields.Keys);
    assert Encode(order, v) == "{" + EncodeFields(order, v, keys) + "}";
    hide Parse, ParseFields, Encode, EncodeFields, Restrict, Keys, Ascending;
    AllKeysRestrict(order, v.fields, keys);
    if keys == [] {
      NoFields(order, v);
      EmptyObject(rest);
    } else {
      var inner := EncodeFields(order, v, keys) + "}" + rest;
      Braces(EncodeFields(order, v, keys), rest);
      FieldsStart(order, v, keys);
      DistinctCount(order, keys, v.fields.Keys);
      ParseEncodedFields(order, v, keys, rest);
      ParseObject(inner, v.fields, rest);
    }
  }

  lemma {:induction false} NoFields(order: KeyOrder, v: Json)
    requires v.Object?
    ensures "{" + EncodeFields(order, v, []) + "}" == "{}"
  {
  }

  lemma Braces(fields: string, rest: string)
    ensures "{" + fields + "}" + rest == "{" + (fields + "}" + rest)
  {
  }

  /** Different values never share an encoding, so a checksum over it pins the value. */
  lemma {:induction false} EncodeIsInjective(order: KeyOrder, a: Json, b: Json)
    requires Encode(order, a) == Encode(order, b)
    ensures a == b
  {
    ParseUndoesEncode(order, a, "");
    ParseUndoesEncode(order, b, "");
    assert Encode(order, a) + "" == Encode(order, a) && Encode(order, b) + "" == Encode(order, b);
  }

  // ---- when the two encoders agree ----

  /** One of the characters is beyond the first plane, the other at its end, behind the surrogates. */
  predicate CharsClash(c: char, d: char) {
    var m, n := c as int, d as int;
    (m >= 0x1_0000 && 0xE000 <= n < 0x1_0000) || (n >= 0x1_0000 && 0xE000 <= m < 0x1_0000)
  }

  /** The two strings first differ in two such characters. */
  ghost predicate Clash(a: string, b: string) {
    exists i :: 0 <= i < |a| && i < |b| && a[..i] == b[..i] && CharsClash(a[i], b[i])
  }

  lemma SamePrefixSameFirst(a: string, b: string)
    ensures forall i :: 0 < i <= |a| && i <= |b| && a[..i] == b[..i] ==> a[0] == b[0]
  {
    forall i | 0 < i <= |a| && i <= |b| && a[..i] == b[..i]
      ensures a[0] == b[0]
    {
      assert a[..i][0] == b[..i][0];
    }
  }

  lemma ClashFurtherOn(a: string, b: string)
    requires a != "" && b != ""
    ensures Clash(a, b) <==> if a[0] == b[0] then Clash(a[1..], b[1..]) else CharsClash(a[0], b[0])
  {
    SamePrefixSameFirst(a, b);
    if a[0] == b[0] {
      if Clash(a, b) {
        var i :| 0 <= i < |a| && i < |b| && a[..i] == b[..i] && CharsClash(a[i], b[i]);
        assert a[1..][..i - 1] == a[..i][1..] && b[1..][..i - 1] == b[..i][1..]
               && CharsClash(a[1..][i - 1], b[1..][i - 1]);
      }
      if Clash(a[1..], b[1..]) {
        var i :| 0 <= i < |a| - 1 && i < |b| - 1 && a[1..][..i] == b[1..][..i] && CharsClash(a[1..][i], b[1..][i]);
        assert a[..i + 1] == [a[0]] + a[1..][..i] && b[..i + 1] == [b[0]] + b[1..][..i]
               && CharsClash(a[i + 1], b[i + 1]);
      }
    } else {
      if Clash(a, b) {
        var i :| 0 <= i < |a| && i < |b| && a[..i] == b[..i] && CharsClash(a[i], b[i]);
      }
      assert a[..0] == b[..0];
    }
  }

  /** The orders differ on two strings if and only if these clash. */
  lemma {:induction false} OrdersAgreeUnlessClash(a: string, b: string)
    ensures Precedes(CodeUnits, a, b) == Precedes(Bytes, a, b) <==> !Clash(a, b)
    decreases |a|
  {
    PrecedesByChar(CodeUnits, a, b);
    PrecedesByChar(Bytes, a, b);
    if a != "" && b != "" {
      ClashFurtherOn(a, b);
      hide Clash, Precedes;
      if a[0] == b[0] { OrdersAgreeUnlessClash(a[1..], b[1..]); }
    }
  }

  /** No two keys of one object clash, anywhere in the value. */
  ghost predicate NoKeysClash(v: Json)
    decreases v
  {
    match v
    case Array(items) => forall i :: 0 <= i < |items| ==> NoKeysClash(items[i])
    case Object(fields) =>
      && (forall k :: k in fields ==> NoKeysClash(fields[k]))
      && (forall a, b :: a in fields && b in fields ==> !Clash(a, b))
    case _ => true
  }

  lemma SameKeys(s: set<string>)
    ensures Keys(CodeUnits, s) == Keys(Bytes, s) <==> forall a, b :: a in s && b in s ==> !Clash(a, b)
  {
    var keys := Keys(CodeUnits, s);
    if forall a, b :: a in s && b in s ==> !Clash(a, b) {
      forall i, j | 0 <= i < j < |keys|
        ensures Precedes(Bytes, keys[i], keys[j])
      {
        OrdersAgreeUnlessClash(keys[i], keys[j]);
      }
      OneAscendingList(Bytes, keys, Keys(Bytes, s), s);
    }
    if keys == Keys(Bytes, s) {
      forall a, b | a in s && b in s
        ensures !Clash(a, b)
      {
        SameKeysAgree(keys, s, a, b);
      }
    }
  }

  lemma SameKeysAgree(keys: seq<string>, s: set<string>, a: string, b: string)
    requires Lists(CodeUnits, keys, s) && Lists(Bytes, keys, s) && a in s && b in s
    ensures !Clash(a, b)
  {
    hide Precedes, Clash;
    var i :| 0 <= i < |keys| && keys[i] == a;
    var j :| 0 <= j < |keys| && keys[j] == b;
    PrecedesIsTotal(CodeUnits, a, b);
    PrecedesIsTotal(Bytes, a, b);
    OrdersAgreeUnlessClash(a, b);
    OrdersAgreeUnlessClash(b, a);
    if i < j {
      assert Precedes(CodeUnits, keys[i], keys[j]) && Precedes(Bytes, keys[i], keys[j]);
    } else if j < i {
      assert Precedes(CodeUnits, keys[j], keys[i]) && Precedes(Bytes, keys[j], keys[i]);
    }
  }

  lemma SameEnd(a: string, b: string, x: string, y: string)
    requires a + x == b + y && x == y
    ensures a == b
  {
    assert |a| == |b|;
    assert a == (a + x)[..|a|] && b == (b + y)[..|b|];
  }

  lemma {:induction false} SameItems(items: seq<Json>)
    requires items != [] && EncodeItems(CodeUnits, items) + "]" == EncodeItems(Bytes, items) + "]"
    ensures forall i :: 0 <= i < |items| ==> Encode(CodeUnits, items[i]) == Encode(Bytes, items[i])
  {
    hide Encode, EncodeItems, Parse;
    assert forall t: string :: t + "" == t;
    if |items| == 1 {
      OneItemEncoded(CodeUnits, items, "");
      OneItemEncoded(Bytes, items, "");
      SameEnd(Encode(CodeUnits, items[0]), Encode(Bytes, items[0]), "]", "]");
    } else {
      MoreItemsEncoded(CodeUnits, items, "");
      MoreItemsEncoded(Bytes, items, "");
      var x, y := EncodeItems(CodeUnits, items[1..]) + "]" + "", EncodeItems(Bytes, items[1..]) + "]" + "";
      ParseUndoesEncode(CodeUnits, items[0], "," + x);
      ParseUndoesEncode(Bytes, items[0], "," + y);
      assert ("," + x)[1..] == x && ("," + y)[1..] == y;
      SameEnd(Encode(CodeUnits, items[0]), Encode(Bytes, items[0]), "," + x, "," + y);
      SameItems(items[1..]);
      assert forall i :: 1 <= i < |items| ==> items[i] == items[1..][i - 1];
    }
  }

  /** The value behind a key, and what follows it, are read the same from both encodings. */
  lemma {:induction false} SameValue(v: Json, x: string, y: string)
    requires Ends(x) && Ends(y) && Encode(CodeUnits, v) + x == Encode(Bytes, v) + y
    ensures x == y && Encode(CodeUnits, v) == Encode(Bytes, v)
  {
    hide Encode, Parse;
    ParseUndoesEncode(CodeUnits, v, x);
    ParseUndoesEncode(Bytes, v, y);
    SameEnd(Encode(CodeUnits, v), Encode(Bytes, v), x, y);
  }

  lemma SameKey(k: string, l: string, x: string, y: string)
    requires Quote(k) + ":" + x == Quote(l) + ":" + y
    ensures k == l && x == y
  {
    hide Quote, ParseChars;
    ParseKey(k, x);
    ParseKey(l, y);
    assert (":" + x)[1..] == x && (":" + y)[1..] == y;
  }

  /** What follows the first field. */
  ghost function AfterField(order: KeyOrder, v: Json, keys: seq<string>): string
    requires v.Object? && keys != [] && forall k :: k in keys ==> k in v.fields
  {
    if |keys| == 1 then "}" else "," + (EncodeFields(order, v, keys[1..]) + "}")
  }

  lemma {:induction false} FirstFieldEncoded(order: KeyOrder, v: Json, keys: seq<string>)
    requires v.Object? && keys != [] && forall k :: k in keys ==> k in v.fields
    ensures EncodeFields(order, v, keys) + "}" ==
            Quote(keys[0]) + ":" + (Encode(order, v.fields[keys[0]]) + AfterField(order, v, keys))
    ensures Ends(AfterField(order, v, keys)) && (AfterField(order, v, keys)[0] == '}' <==> |keys| == 1)
  {
    hide Encode, EncodeFields, Quote;
    assert forall t: string :: t + "" == t;
    if |keys| == 1 {
      OneFieldEncoded(order, v, keys, "");
    } else {
      MoreFieldsEncoded(order, v, keys, "");
    }
  }

  lemma {:induction false} SameFields(v: Json, a: seq<string>, b: seq<string>)
    requires v.Object? && a != [] && b != [] && (forall k :: k in a ==> k in v.fields)
             && (forall k :: k in b ==> k in v.fields)
    requires EncodeFields(CodeUnits, v, a) + "}" == EncodeFields(Bytes, v, b) + "}"
    ensures a == b && forall k :: k in a ==> Encode(CodeUnits, v.fields[k]) == Encode(Bytes, v.fields[k])
    decreases |a|
  {
    hide Encode, EncodeFields, Quote;
    FirstFieldEncoded(CodeUnits, v, a);
    FirstFieldEncoded(Bytes, v, b);
    var x, y := AfterField(CodeUnits, v, a), AfterField(Bytes, v, b);
    SameKey(a[0], b[0], Encode(CodeUnits, v.fields[a[0]]) + x, Encode(Bytes, v.fields[b[0]]) + y);
    SameValue(v.fields[a[0]], x, y);
    if |a| > 1 {
      assert x[1..] == EncodeFields(CodeUnits, v, a[1..]) + "}" && y[1..] == EncodeFields(Bytes, v, b[1..]) + "}";
      SameFields(v, a[1..], b[1..]);
    }
    assert a == [a[0]] + a[1..] && b == [b[0]] + b[1..];
  }

  lemma {:induction false} ItemsAlike(items: seq<Json>)
    requires forall i :: 0 <= i < |items| ==> Encode(CodeUnits, items[i]) == Encode(Bytes, items[i])
    ensures EncodeItems(CodeUnits, items) == EncodeItems(Bytes, items)
  {
    hide Encode;
    if |items| > 1 { ItemsAlike(items[1..]); }
  }

  lemma {:induction false} FieldsAlike(v: Json, keys: seq<string>)
    requires v.Object? && forall k :: k in keys ==>
             k in v.fields && Encode(CodeUnits, v.fields[k]) == Encode(Bytes, v.fields[k])
    ensures EncodeFields(CodeUnits, v, keys) == EncodeFields(Bytes, v, keys)
    decreases |keys|
  {
    hide Encode;
    if |keys| > 1 { FieldsAlike(v, keys[1..]); }
  }

  /** The TypeScript and the Rust encoder write the same text if and only if no two keys of an object clash. */
  lemma {:induction false} EncodersAgreeUnlessKeysClash(v: Json)
    ensures Encode(CodeUnits, v) == Encode(Bytes, v) <==> NoKeysClash(v)
    decreases v
  {
    match v
    case Array(items) =>
      forall i | 0 <= i < |items|
        ensures Encode(CodeUnits, items[i]) == Encode(Bytes, items[i]) <==> NoKeysClash(items[i])
      {
        EncodersAgreeUnlessKeysClash(items[i]);
      }
      ArraysAgree(items);
    case Object(fields) =>
      forall k | k in fields
        ensures Encode(CodeUnits, fields[k]) == Encode(Bytes, fields[k]) <==> NoKeysClash(fields[k])
      {
        EncodersAgreeUnlessKeysClash(fields[k]);
      }
      ObjectsAgree(v);
    case _ =>
  }

  lemma ArraysAgree(items: seq<Json>)
    ensures Encode(CodeUnits, Array(items)) == Encode(Bytes, Array(items)) <==>
            forall i :: 0 <= i < |items| ==> Encode(CodeUnits, items[i]) == Encode(Bytes, items[i])
  {
    var a, b := Encode(CodeUnits, Array(items)), Encode(Bytes, Array(items));
    assert a == "[" + EncodeItems(CodeUnits, items) + "]" && b == "[" + EncodeItems(Bytes, items) + "]";
    hide Encode, EncodeItems;
    assert a[1..] == EncodeItems(CodeUnits, items) + "]" && b[1..] == EncodeItems(Bytes, items) + "]";
    if a == b && items != [] {
      SameItems(items);
    }
    if forall i :: 0 <= i < |items| ==> Encode(CodeUnits, items[i]) == Encode(Bytes, items[i]) {
      ItemsAlike(items);
    }
  }

  ghost predicate FieldsEncodedAlike(v: Json)
    requires v.Object?
  {
    forall k :: k in v.fields ==> Encode(CodeUnits, v.fields[k]) == Encode(Bytes, v.fields[k])
  }

  lemma {:induction false} ObjectsAgree(v: Json)
    requires v.Object?
    ensures Encode(CodeUnits, v) == Encode(Bytes, v) <==>
            FieldsEncodedAlike(v) && forall a, b :: a in v.fields && b in v.fields ==> !Clash(a, b)
  {
    hide Encode, FieldsEncodedAlike, Clash, Keys;
    SameKeys(v.fields.Keys);
    if Encode(CodeUnits, v) == Encode(Bytes, v) {
      AlikeMeansSameKeys(v);
    }
    if Keys(CodeUnits, v.fields.Keys) == Keys(Bytes, v.fields.Keys) && FieldsEncodedAlike(v) {
      SameKeysMeanAlike(v);
    }
  }

  lemma {:induction false} ObjectEncoded(order: KeyOrder, v: Json)
    requires v.Object?
    ensures var keys := Keys(order, v.fields.Keys);
            && Encode(order, v) == "{" + (EncodeFields(order, v, keys) + "}")
            && (keys == [] ==> v.fields == map[]) && (v.fields == map[] ==> keys == [])
  {
    var keys := Keys(order, v.fields.Keys);
    assert Encode(order, v) == "{" + EncodeFields(order, v, keys) + "}";
    hide Encode, EncodeFields, Keys, Precedes;
    if keys != [] { assert keys[0] in keys; }
    DistinctCount(order, keys, v.fields.Keys);
  }

  lemma {:induction false} AlikeMeansSameKeys(v: Json)
    requires v.Object? && Encode(CodeUnits, v) == Encode(Bytes, v)
    ensures Keys(CodeUnits, v.fields.Keys) == Keys(Bytes, v.fields.Keys) && FieldsEncodedAlike(v)
  {
    hide Encode, EncodeFields, Keys, Ascending;
    var a, b := Keys(CodeUnits, v.fields.Keys), Keys(Bytes, v.fields.Keys);
    ObjectEncoded(CodeUnits, v);
    ObjectEncoded(Bytes, v);
    var x, y := EncodeFields(CodeUnits, v, a) + "}", EncodeFields(Bytes, v, b) + "}";
    assert ("{" + x)[1..] == x && ("{" + y)[1..] == y;
    if v.fields != map[] {
      SameFields(v, a, b);
    }
  }

  lemma {:induction false} SameKeysMeanAlike(v: Json)
    requires v.Object? && Keys(CodeUnits, v.fields.Keys) == Keys(Bytes, v.fields.Keys) && FieldsEncodedAlike(v)
    ensures Encode(CodeUnits, v) == Encode(Bytes, v)
  {
    hide Encode, EncodeFields, Keys, Ascending;
    ObjectEncoded(CodeUnits, v);
    ObjectEncoded(Bytes, v);
    FieldsAlike(v, Keys(Bytes, v.fields.Keys));
  }

  /** All keys of all objects are ASCII. */
  ghost predicate AsciiKeys(v: Json)
    decreases v
  {
    match v
    case Array(items) => forall i :: 0 <= i < |items| ==> AsciiKeys(items[i])
    case Object(fields) => forall k :: k in fields ==> AsciiKeys(fields[k]) && forall c :: c in k ==> c as int < 0x80
    case _ => true
  }

  /** As all keys of a durable header are. */
  lemma {:induction false} AsciiKeysAgree(v: Json)
    requires AsciiKeys(v)
    ensures NoKeysClash(v) && Encode(CodeUnits, v) == Encode(Bytes, v)
    decreases v
  {
    hide Encode;
    EncodersAgreeUnlessKeysClash(v);
    match v
    case Array(items) =>
      forall i | 0 <= i < |items|
        ensures NoKeysClash(items[i])
      {
        AsciiKeysAgree(items[i]);
      }
    case Object(fields) =>
      forall k | k in fields
        ensures NoKeysClash(fields[k])
      {
        AsciiKeysAgree(fields[k]);
      }
      assert forall a, b, i :: a in fields && b in fields && 0 <= i < |a| && i < |b| ==> a[i] in a && b[i] in b;
    case _ =>
  }

  /** Two keys that the encoders put in different orders. */
  lemma EncodersCanDiffer() returns (v: Json)
    ensures Encode(CodeUnits, v) != Encode(Bytes, v)
  {
    var last, astral := "\U{E000}", "\U{10000}";
    v := Object(map[last := Null, astral := Null]);
    assert Clash(last, astral) by { assert last[..0] == astral[..0] && CharsClash(last[0], astral[0]); }
    assert last in v.fields && astral in v.fields;
    EncodersAgreeUnlessKeysClash(v);
  }

  // ---- one line per value ----

  lemma {:induction false} EscapeHasNoNewline(s: string)
    ensures '\n' !in Escape(s)
  {
    if s != "" { EscapeHasNoNewline(s[1..]); }
  }

  lemma {:induction false} DigitsHaveNoNewline(n: nat)
    ensures '\n' !in Digits(n)
  {
    if n >= 10 { DigitsHaveNoNewline(n / 10); }
  }

  /** An encoding is a single line: the log can keep one record per line. */
  lemma {:induction false} EncodeHasNoNewline(order: KeyOrder, v: Json)
    ensures '\n' !in Encode(order, v)
    decreases v, 0
  {
    match v
    case Number(n) => DigitsHaveNoNewline(if n < 0 then -n else n);
    case String(s) => EscapeHasNoNewline(s);
    case Array(items) => ItemsHaveNoNewline(order, items);
    case Object(fields) => FieldsHaveNoNewline(order, v, Keys(order, fields.Keys));
    case _ =>
  }

  lemma {:induction false} ItemsHaveNoNewline(order: KeyOrder, items: seq<Json>)
    ensures '\n' !in EncodeItems(order, items)
    decreases items, 0
  {
    if items != [] {
      EncodeHasNoNewline(order, items[0]);
      if |items| > 1 { ItemsHaveNoNewline(order, items[1..]); }
    }
  }

  lemma {:induction false} FieldsHaveNoNewline(order: KeyOrder, v: Json, keys: seq<string>)
    requires v.Object? && forall k :: k in keys ==> k in v.fields
    ensures '\n' !in EncodeFields(order, v, keys)
    decreases v, 0, |keys|
  {
    if keys != [] {
      EscapeHasNoNewline(keys[0]);
      EncodeHasNoNewline(order, v.fields[keys[0]]);
      if |keys| > 1 { FieldsHaveNoNewline(order, v, keys[1..]); }
    }
  }

  // ---- the encoder as a program ----

  /** `items.join(",")`. */
  function Join(parts: seq<string>): string {
    if parts == [] then "" else if |parts| == 1 then parts[0] else parts[0] + "," + Join(parts[1..])
  }

  lemma {:induction false} JoinedItems(order: KeyOrder, items: seq<Json>, parts: seq<string>)
    requires |parts| == |items| && forall i :: 0 <= i < |items| ==> parts[i] == Encode(order, items[i])
    ensures Join(parts) == EncodeItems(order, items)
  {
    if |items| > 1 { JoinedItems(order, items[1..], parts[1..]); }
  }

  lemma {:induction false} JoinedFields(order: KeyOrder, v: Json, keys: seq<string>, parts: seq<string>)
    requires v.Object? && (forall k :: k in keys ==> k in v.fields) && |parts| == |keys|
    requires forall i :: 0 <= i < |keys| ==> parts[i] == Quote(keys[i]) + ":" + Encode(order, v.fields[keys[i]])
    ensures Join(parts) == EncodeFields(order, v, keys)
    decreases |keys|
  {
    if |keys| > 1 { JoinedFields(order, v, keys[1..], parts[1..]); }
  }

  /** `canonicalJson` in the one order and `canonical_json` in the other: an object's keys come in any order, and the
      result does not depend on it. */
  method EncodeJson(order: KeyOrder, v: Json) returns (r: string)
    ensures r == Encode(order, v)
    decreases v, 1
  {
    match v
    case Null => r := "null";
    case Bool(b) => r := if b then "true" else "false";
    case Number(n) => r := if n < 0 then "-" + Digits(-n) else Digits(n);
    case String(s) => r := Quote(s);
    case Array(items) => r := EncodeArray(order, v);
    case Object(fields) => r := EncodeObject(order, v);
  }

  method EncodeArray(order: KeyOrder, v: Json) returns (r: string)
    requires v.Array?
    ensures r == "[" + EncodeItems(order, v.items) + "]"
    decreases v, 0
  {
    hide Join, Encode, EncodeItems;
    var parts: seq<string> := [];
    for i := 0 to |v.items|
      invariant |parts| == i && forall k :: 0 <= k < i ==> parts[k] == Encode(order, v.items[k])
    {
      var part := EncodeJson(order, v.items[i]);
      parts := parts + [part];
    }
    JoinedItems(order, v.items, parts);
    r := "[" + Join(parts) + "]";
  }

  method EncodeObject(order: KeyOrder, v: Json) returns (r: string)
    requires v.Object?
    ensures r == "{" + EncodeFields(order, v, Keys(order, v.fields.Keys)) + "}"
    decreases v, 0
  {
    hide Join, Encode, EncodeFields, Quote, Ascending;
    var keys := SortedKeys(order, v.fields.Keys);
    OneAscendingList(order, keys, Keys(order, v.fields.Keys), v.fields.Keys);
    var parts: seq<string> := [];
    for i := 0 to |keys|
      invariant |parts| == i && forall k :: 0 <= k < i ==>
                parts[k] == Quote(keys[k]) + ":" + Encode(order, v.fields[keys[k]])
    {
      var part := EncodeJson(order, v.fields[keys[i]]);
      parts := parts + [Quote(keys[i]) + ":" + part];
    }
    JoinedFields(order, v, keys, parts);
    r := "{" + Join(parts) + "}";
  }
}
