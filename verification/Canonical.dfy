/** The payload fingerprint of `src/manifest.rs`: the canonical text that is hashed, and why it
    identifies a payload. */
module Canonical {
  import opened Decimal
  import opened Ordering
  import opened Outcomes

  predicate IsNumberChar(c: char) { IsDigit(c) || c == '-' || c == '+' || c == '.' || c == 'e' || c == 'E' }

  /** Every number of section 6 of RFC 8259 is such a text. */
  predicate IsNumberText(text: string) {
    |text| > 0 && (text[0] == '-' || IsDigit(text[0])) && forall i :: 0 <= i < |text| ==> IsNumberChar(text[i])
  }

  /** A number is what it is printed as. */
  type NumberText = text: string | IsNumberText(text) witness "0"

  /** A JSON value. Object members are a map, so member order is not part of a value. */
  datatype Value =
    | Null
    | Bool(b: bool)
    | Number(n: NumberText)
    | Str(s: string)
    | Array(items: seq<Value>)
    | Object(members: map<string, Value>)

  const ROTATING: set<string> := {
    "token", "configuration_version_url", "filesystem_url", "terraform_url",
    "terraform_log_url", "json_plan_url", "state_artifact_url" }

  /** Two payloads say the same, the `rotating` keys aside: at every depth they have the same
      members once null members and rotating keys are ignored, and those members agree. */
  ghost predicate Agree(rotating: set<string>, a: Value, b: Value) {
    match (a, b)
    case (Array(xs), Array(ys)) =>
      |xs| == |ys| && forall i :: 0 <= i < |xs| ==> Agree(rotating, xs[i], ys[i])
    case (Object(m), Object(n)) =>
      && Significant(rotating, m) == Significant(rotating, n)
      && forall k :: k in Significant(rotating, m) ==> Agree(rotating, m[k], n[k])
    case _ => a == b
  }

  ghost function Significant(rotating: set<string>, m: map<string, Value>): set<string> {
    set k | k in m && m[k] != Null && k !in rotating
  }

  // ---------------------------------------------------------------------------------------------
  // The text
  // ---------------------------------------------------------------------------------------------

  function Hex(d: nat): char
    requires d < 16
  {
    if d < 10 then '0' + d as char else 'a' + (d - 10) as char
  }

  /** One character inside a string, escaped as section 7 of RFC 8259 asks and as serde_json
      chooses among the allowed forms. */
  function Escape(c: char): (s: string) {
    if c == '\"' then "\\\""
    else if c == '\\' then "\\\\"
    else if c == '\n' then "\\n"
    else if c == '\r' then "\\r"
    else if c == '\t' then "\\t"
    else if c as int == 8 then "\\b"
    else if c as int == 12 then "\\f"
    else if c as int < 32 then "\\u00" + [Hex(c as int / 16), Hex(c as int % 16)]
    else [c]
  }

  /** A string's escaped characters, then `rest`. */
  function EscapedPut(s: string, rest: string): string {
    if s == "" then rest else Escape(s[0]) + EscapedPut(s[1..], rest)
  }

  function QuotedPut(s: string, rest: string): string { "\"" + EscapedPut(s, "\"" + rest) }

  function NonNull(m: map<string, Value>): set<string> { set k | k in m && m[k] != Null }

  ghost function Keys(m: map<string, Value>): (keys: seq<string>)
    ensures Sorted(TextLess, keys) && Elements(keys) == NonNull(m)
    ensures forall k :: k in keys ==> k in m && m[k] != Null
  {
    TextTotal();
    var keys := Listing(TextLess, NonNull(m));
    assert forall k :: k in keys ==> k in Elements(keys);
    keys
  }

  /** The canonical text of a value, then `rest`. */
  ghost function Put(v: Value, rest: string): string
    decreases v, 1, 0
  {
    match v
    case Null => "null" + rest
    case Bool(b) => (if b then "true" else "false") + rest
    case Number(n) => n + rest
    case Str(s) => QuotedPut(s, rest)
    case Array(items) => "[" + ItemsPut(items, "]" + rest)
    case Object(m) => "{" + MembersPut(Keys(m), v, "}" + rest)
  }

  ghost function ItemsPut(items: seq<Value>, rest: string): string
    decreases items, 0, 0
  {
    if |items| == 0 then rest
    else Put(items[0], if |items| == 1 then rest else "," + ItemsPut(items[1..], rest))
  }

  ghost function MembersPut(keys: seq<string>, v: Value, rest: string): string
    requires v.Object? && forall k :: k in keys ==> k in v.members
    decreases v, 0, |keys|
  {
    if |keys| == 0 then rest
    else QuotedPut(keys[0], ":" + Put(v.members[keys[0]],
      if |keys| == 1 then rest else "," + MembersPut(keys[1..], v, rest)))
  }

  /** The text that is hashed. */
  ghost function Text(v: Value): string { Put(v, "") }

  // ---------------------------------------------------------------------------------------------
  // The text reads in one way only
  // ---------------------------------------------------------------------------------------------

  /** A value with null members dropped at every depth. */
  ghost function DropNulls(v: Value): (r: Value)
    ensures r == Null <==> v == Null
  {
    match v
    case Array(items) => Array(seq(|items|, i requires 0 <= i < |items| => DropNulls(items[i])))
    case Object(m) => Object(map k | k in m && m[k] != Null :: DropNulls(m[k]))
    case _ => v
  }

  /** What may follow a value: nothing, a separator or a closing bracket. */
  predicate Ends(s: string) { |s| > 0 ==> s[0] == ',' || s[0] == ']' || s[0] == '}' }

  lemma Cancel(p: string, r: string, q: string)
    requires p + r == p + q
    ensures r == q
  {
    assert r == (p + r)[|p|..] && q == (p + q)[|p|..];
  }

  /** An escape's length shows in its first two characters. */
  lemma EscapeLength(c: char)
    ensures |Escape(c)| == 1 <==> Escape(c)[0] != '\\'
    ensures |Escape(c)| > 1 ==>
      (|Escape(c)| == 6 <==> Escape(c)[1] == 'u') && (|Escape(c)| == 2 <==> Escape(c)[1] != 'u')
  {
  }

  lemma EscapeInjective(c: char, d: char)
    requires Escape(c) == Escape(d)
    ensures c == d
  {
    EscapeLength(c);
    EscapeLength(d);
    if |Escape(c)| == 6 {
      assert Hex(c as int / 16) == Escape(c)[4] == Escape(d)[4] == Hex(d as int / 16);
      assert Hex(c as int % 16) == Escape(c)[5] == Escape(d)[5] == Hex(d as int % 16);
    } else {
      assert Escape(c)[0] == Escape(d)[0];
      if |Escape(c)| == 2 { assert Escape(c)[1] == Escape(d)[1]; }
    }
  }

  lemma EscapeReading(c: char, d: char, r: string, q: string)
    requires Escape(c) + r == Escape(d) + q
    ensures c == d && r == q
  {
    var e, f := Escape(c), Escape(d);
    EscapeLength(c);
    EscapeLength(d);
    assert e[0] == (e + r)[0] == (f + q)[0] == f[0];
    if |e| > 1 { assert e[1] == (e + r)[1] == (f + q)[1] == f[1]; }
    assert e == (e + r)[..|e|] && f == (f + q)[..|e|];
    EscapeInjective(c, d);
    Cancel(e, r, q);
  }

  lemma EscapedFirst(s: string, rest: string)
    ensures EscapedPut(s, "\"" + rest) != ""
    ensures EscapedPut(s, "\"" + rest)[0] == '\"' <==> s == ""
  {
    if s != "" { assert EscapedPut(s, "\"" + rest)[0] == Escape(s[0])[0]; }
  }

  lemma {:induction false} EscapedReading(a: string, b: string, r: string, q: string)
    requires EscapedPut(a, "\"" + r) == EscapedPut(b, "\"" + q)
    ensures a == b && r == q
  {
    EscapedFirst(a, r);
    EscapedFirst(b, q);
    if a == "" {
      Cancel("\"", r, q);
    } else {
      EscapeReading(a[0], b[0], EscapedPut(a[1..], "\"" + r), EscapedPut(b[1..], "\"" + q));
      EscapedReading(a[1..], b[1..], r, q);
      assert a == [a[0]] + a[1..] && b == [b[0]] + b[1..];
    }
  }

  lemma QuotedReading(a: string, b: string, r: string, q: string)
    requires QuotedPut(a, r) == QuotedPut(b, q)
    ensures a == b && r == q
  {
    Cancel("\"", EscapedPut(a, "\"" + r), EscapedPut(b, "\"" + q));
    EscapedReading(a, b, r, q);
  }

  /** The character a value's text begins with; digits count as '-'. */
  function Opening(v: Value): char {
    match v
    case Null => 'n'
    case Bool(b) => if b then 't' else 'f'
    case Number(_) => '-'
    case Str(_) => '\"'
    case Array(_) => '['
    case Object(_) => '{'
  }

  lemma PutFirst(v: Value, rest: string)
    ensures Put(v, rest) != ""
    ensures Opening(v) == if IsDigit(Put(v, rest)[0]) then '-' else Put(v, rest)[0]
  {
  }

  function NumberRun(s: string): nat { if |s| > 0 && IsNumberChar(s[0]) then 1 + NumberRun(s[1..]) else 0 }

  lemma SeparatorsAreNotNumbers()
    ensures !IsNumberChar(',') && !IsNumberChar(']') && !IsNumberChar('}')
  {
    assert ',' as int == 44 && ']' as int == 93 && '}' as int == 125;
    assert '+' as int == 43 && '-' as int == 45 && '.' as int == 46 && 'E' as int == 69 && 'e' as int == 101;
  }

  lemma {:induction false} NumberRunLength(a: string, r: string)
    requires (forall i :: 0 <= i < |a| ==> IsNumberChar(a[i])) && Ends(r)
    ensures NumberRun(a + r) == |a|
  {
    if |a| == 0 {
      assert a + r == r;
      SeparatorsAreNotNumbers();
    } else {
      assert (a + r)[1..] == a[1..] + r;
      NumberRunLength(a[1..], r);
    }
  }

  /** A number's text ends where the first other character stands. */
  lemma NumberReading(a: NumberText, b: NumberText, r: string, q: string)
    requires Ends(r) && Ends(q) && a + r == b + q
    ensures a == b && r == q
  {
    NumberRunLength(a, r);
    NumberRunLength(b, q);
    assert a == (a + r)[..|a|] && b == (b + q)[..|a|];
    assert r == (a + r)[|a|..] && q == (b + q)[|a|..];
  }

  /** A value's text, followed by a separator or nothing, determines the value up to null members,
      and where the text ends. */
  lemma {:induction false} Reading(a: Value, b: Value, r: string, q: string)
    requires Ends(r) && Ends(q)
    requires Put(a, r) == Put(b, q)
    ensures DropNulls(a) == DropNulls(b) && r == q
    decreases a, 1, 0
  {
    PutFirst(a, r);
    PutFirst(b, q);
    match a {
      case Null => Cancel("null", r, q);
      case Bool(x) => Cancel(if x then "true" else "false", r, q);
      case Number(n) => NumberReading(n, b.n, r, q);
      case Str(x) => QuotedReading(x, b.s, r, q);
      case Array(xs) =>
        Cancel("[", ItemsPut(xs, "]" + r), ItemsPut(b.items, "]" + q));
        ItemsReading(xs, b.items, r, q);
        assert DropNulls(a).items == DropNulls(b).items;
      case Object(m) =>
        var ks, ls := Keys(m), Keys(b.members);
        Cancel("{", MembersPut(ks, a, "}" + r), MembersPut(ls, b, "}" + q));
        MembersReading(ks, ls, a, b, r, q);
        ObjectsSame(a, b, ks);
    }
  }

  lemma ObjectsSame(a: Value, b: Value, keys: seq<string>)
    requires a.Object? && b.Object? && keys == Keys(a.members) == Keys(b.members)
    requires forall k :: k in keys ==> DropNulls(a.members[k]) == DropNulls(b.members[k])
    ensures DropNulls(a) == DropNulls(b)
  {
    forall k | k in NonNull(a.members)
      ensures DropNulls(a.members[k]) == DropNulls(b.members[k])
    {
      assert k in Elements(keys);
    }
    assert DropNulls(a).members == DropNulls(b).members;
  }

  ghost function ItemsRest(xs: seq<Value>, r: string): (s: string)
    requires |xs| > 0
    ensures s != "" && s[0] == if |xs| == 1 then ']' else ','
  {
    if |xs| == 1 then "]" + r else "," + ItemsPut(xs[1..], "]" + r)
  }

  lemma ItemsFirst(xs: seq<Value>, r: string)
    ensures ItemsPut(xs, "]" + r) != ""
    ensures ItemsPut(xs, "]" + r)[0] == ']' <==> |xs| == 0
    ensures |xs| > 0 ==> ItemsPut(xs, "]" + r) == Put(xs[0], ItemsRest(xs, r))
  {
    if |xs| > 0 { PutFirst(xs[0], ItemsRest(xs, r)); }
  }

  lemma {:induction false} ItemsReading(xs: seq<Value>, ys: seq<Value>, r: string, q: string)
    requires ItemsPut(xs, "]" + r) == ItemsPut(ys, "]" + q)
    ensures |xs| == |ys| && r == q
    ensures forall i :: 0 <= i < |xs| ==> DropNulls(xs[i]) == DropNulls(ys[i])
    decreases xs, 0, 0
  {
    ItemsFirst(xs, r);
    ItemsFirst(ys, q);
    if |xs| == 0 {
      Cancel("]", r, q);
    } else {
      Reading(xs[0], ys[0], ItemsRest(xs, r), ItemsRest(ys, q));
      if |xs| == 1 {
        Cancel("]", r, q);
      } else {
        Cancel(",", ItemsPut(xs[1..], "]" + r), ItemsPut(ys[1..], "]" + q));
        ItemsReading(xs[1..], ys[1..], r, q);
        assert xs == [xs[0]] + xs[1..] && ys == [ys[0]] + ys[1..];
      }
    }
  }

  ghost function MembersRest(keys: seq<string>, v: Value, r: string): (s: string)
    requires v.Object? && |keys| > 0 && forall k :: k in keys ==> k in v.members
    ensures s != "" && s[0] == if |keys| == 1 then '}' else ','
  {
    if |keys| == 1 then "}" + r else "," + MembersPut(keys[1..], v, "}" + r)
  }

  lemma MembersFirst(keys: seq<string>, v: Value, r: string)
    requires v.Object? && forall k :: k in keys ==> k in v.members
    ensures MembersPut(keys, v, "}" + r) != ""
    ensures MembersPut(keys, v, "}" + r)[0] == '}' <==> |keys| == 0
    ensures |keys| > 0 ==>
      MembersPut(keys, v, "}" + r) == QuotedPut(keys[0], ":" + Put(v.members[keys[0]], MembersRest(keys, v, r)))
  {
  }

  lemma {:induction false} MembersReading(
      ks: seq<string>, ls: seq<string>, a: Value, b: Value, r: string, q: string)
    requires a.Object? && forall k :: k in ks ==> k in a.members
    requires b.Object? && forall l :: l in ls ==> l in b.members
    requires MembersPut(ks, a, "}" + r) == MembersPut(ls, b, "}" + q)
    ensures ks == ls && r == q
    ensures forall k :: k in ks ==> DropNulls(a.members[k]) == DropNulls(b.members[k])
    decreases a, 0, |ks|
  {
    MembersFirst(ks, a, r);
    MembersFirst(ls, b, q);
    if |ks| == 0 {
      Cancel("}", r, q);
    } else {
      var x, y := MembersRest(ks, a, r), MembersRest(ls, b, q);
      QuotedReading(ks[0], ls[0], ":" + Put(a.members[ks[0]], x), ":" + Put(b.members[ls[0]], y));
      Cancel(":", Put(a.members[ks[0]], x), Put(b.members[ls[0]], y));
      Reading(a.members[ks[0]], b.members[ls[0]], x, y);
      if |ks| == 1 {
        Cancel("}", r, q);
      } else {
        Cancel(",", MembersPut(ks[1..], a, "}" + r), MembersPut(ls[1..], b, "}" + q));
        MembersReading(ks[1..], ls[1..], a, b, r, q);
      }
      assert ks == [ks[0]] + ks[1..] && ls == [ls[0]] + ls[1..];
    }
  }

  // ---------------------------------------------------------------------------------------------
  // Null members and rotating keys leave no trace, everything else does
  // ---------------------------------------------------------------------------------------------

  lemma {:induction false} PutIgnoresNulls(v: Value, rest: string)
    ensures Put(DropNulls(v), rest) == Put(v, rest)
    decreases v, 1, 0
  {
    match v {
      case Array(items) => ItemsIgnoreNulls(items, DropNulls(v).items, "]" + rest);
      case Object(m) =>
        var d := DropNulls(v);
        assert NonNull(d.members) == NonNull(m);
        TextTotal();
        SortedUnique(TextLess, Keys(d.members), Keys(m));
        MembersIgnoreNulls(Keys(m), v, "}" + rest);
      case _ =>
    }
  }

  lemma {:induction false} ItemsIgnoreNulls(items: seq<Value>, dropped: seq<Value>, rest: string)
    requires |dropped| == |items|
    requires forall i :: 0 <= i < |items| ==> dropped[i] == DropNulls(items[i])
    ensures ItemsPut(dropped, rest) == ItemsPut(items, rest)
    decreases items, 0, 0
  {
    if |items| > 0 {
      ItemsIgnoreNulls(items[1..], dropped[1..], rest);
      PutIgnoresNulls(items[0], if |items| == 1 then rest else "," + ItemsPut(items[1..], rest));
    }
  }

  lemma {:induction false} MembersIgnoreNulls(keys: seq<string>, v: Value, rest: string)
    requires v.Object? && forall k :: k in keys ==> k in v.members && v.members[k] != Null
    ensures MembersPut(keys, DropNulls(v), rest) == MembersPut(keys, v, rest)
    decreases v, 0, |keys|
  {
    if |keys| > 0 {
      MembersIgnoreNulls(keys[1..], v, rest);
      PutIgnoresNulls(v.members[keys[0]],
        if |keys| == 1 then rest else "," + MembersPut(keys[1..], v, rest));
    }
  }

  /** The canonical writer is injective up to member order and null members. */
  lemma CanonicalTextExact(a: Value, b: Value)
    ensures Text(a) == Text(b) <==> DropNulls(a) == DropNulls(b)
  {
    if Text(a) == Text(b) { Reading(a, b, "", ""); }
    PutIgnoresNulls(a, "");
    PutIgnoresNulls(b, "");
  }

  /** A value without the `rotating` keys, at every depth. */
  // ---------------------------------------------------------------------------------------------
  // The text is JSON, and says what the value says
  // ---------------------------------------------------------------------------------------------

  function HexDigit(c: char): Option<nat> {
    if '0' <= c <= '9' then Some(c as int - '0' as int)
    else if 'a' <= c <= 'f' then Some(c as int - 'a' as int + 10)
    else if 'A' <= c <= 'F' then Some(c as int - 'A' as int + 10)
    else None
  }

  /** The character that four hexadecimal digits stand for; halves of surrogate pairs stand for none. */
  function HexCharacter(digits: string): Option<char> {
    if |digits| != 4 || exists i :: 0 <= i < 4 && HexDigit(digits[i]).None? then None
    else
      var n :=
        4096 * HexDigit(digits[0]).value + 256 * HexDigit(digits[1]).value + 16 * HexDigit(digits[2]).value
        + HexDigit(digits[3]).value;
      if 0xD800 <= n < 0xE000 || n >= 0x10000 then None else Some(n as char)
  }

  /** The character behind a backslash and this letter. */
  function ShortEscape(letter: char): Option<char> {
    match letter
    case '\"' => Some('\"')
    case '\\' => Some('\\')
    case '/' => Some('/')
    case 'b' => Some(8 as char)
    case 'f' => Some(12 as char)
    case 'n' => Some(10 as char)
    case 'r' => Some(13 as char)
    case 't' => Some(9 as char)
    case _ => None
  }

  /** The first character that a string's text stands for, and what follows it (section 7 of RFC 8259). */
  function ReadCharacter(text: string): Option<(char, string)> {
    if text == "" || text[0] == '\"' || text[0] as int < 32 then None
    else if text[0] != '\\' then Some((text[0], text[1..]))
    else if |text| >= 2 && text[1] != 'u' then
      if ShortEscape(text[1]).Some? then Some((ShortEscape(text[1]).value, text[2..])) else None
    else if |text| >= 6 && HexCharacter(text[2..6]).Some? then Some((HexCharacter(text[2..6]).value, text[6..]))
    else None
  }

  /** What the text of a string, from behind its opening quote, stands for, and what follows its closing one. */
  ghost predicate ReadsString(s: string, text: string, rest: string) {
    if s == "" then text == "\"" + rest
    else
      exists more :: ReadCharacter(text) == Some((s[0], more)) && ReadsString(s[1..], more, rest)
  }

  ghost predicate ReadsQuoted(s: string, text: string, rest: string) {
    |text| > 0 && text[0] == '\"' && ReadsString(s, text[1..], rest)
  }

  /** The text is a JSON text of the value, and then `rest` (sections 3 to 7 of RFC 8259, without spaces). */
  ghost predicate Reads(v: Value, text: string, rest: string)
    decreases v, 1, 0
  {
    match v
    case Null => text == "null" + rest
    case Bool(b) => if b then text == "true" + rest else text == "false" + rest
    case Number(n) => text == n + rest
    case Str(s) => ReadsQuoted(s, text, rest)
    case Array(items) =>
      if items == [] then text == "[]" + rest
      else |text| > 0 && text[0] == '[' && ReadsItems(items, text[1..], rest)
    case Object(_) => exists keys: seq<string> :: ReadsObject(keys, v, text, rest)
  }

  /** The members come under these keys, in this order, each once. */
  ghost predicate ReadsObject(keys: seq<string>, v: Value, text: string, rest: string)
    requires v.Object?
    decreases v, 0, |keys| + 1
  {
    && Elements(keys) == v.members.Keys && Distinct(keys)
    && if keys == [] then text == "{}" + rest
       else |text| > 0 && text[0] == '{' && ReadsMembers(keys, v, text[1..], rest)
  }

  predicate Distinct(keys: seq<string>) { forall i, j :: 0 <= i < j < |keys| ==> keys[i] != keys[j] }

  ghost predicate ReadsItems(items: seq<Value>, text: string, rest: string)
    requires |items| > 0
    decreases items, 0, 0
  {
    exists more ::
      && Reads(items[0], text, more)
      && if |items| == 1 then more == "]" + rest
         else |more| > 0 && more[0] == ',' && ReadsItems(items[1..], more[1..], rest)
  }

  ghost predicate ReadsMembers(keys: seq<string>, v: Value, text: string, rest: string)
    requires |keys| > 0 && v.Object?
    decreases v, 0, |keys|
  {
    keys[0] in v.members &&
    exists value, more ::
      && ReadsQuoted(keys[0], text, ":" + value) && Reads(v.members[keys[0]], value, more)
      && if |keys| == 1 then more == "}" + rest
         else |more| > 0 && more[0] == ',' && ReadsMembers(keys[1..], v, more[1..], rest)
  }

  lemma HexDigits(d: nat)
    requires d < 16
    ensures HexDigit(Hex(d)) == Some(d)
  {
  }

  lemma EscapeIsRead(c: char, rest: string)
    ensures ReadCharacter(Escape(c) + rest) == Some((c, rest))
  {
    var text := Escape(c) + rest;
    assert text[|Escape(c)|..] == rest;
    if |Escape(c)| == 6 {
      var n := c as int;
      HexDigits(n / 16);
      HexDigits(n % 16);
      assert text[2..6] == ['0', '0', Hex(n / 16), Hex(n % 16)];
      assert HexCharacter(text[2..6]) == Some(c);
    }
  }

  /** And no shorter text is read as the character. */
  lemma EscapeIsShortest(c: char, text: string)
    requires ReadCharacter(text) == Some((c, ""))
    ensures |Escape(c)| <= |text|
  {
    if |text| == 2 { assert ShortEscape(text[1]) == Some(c); }
  }

  lemma {:induction false} EscapedIsRead(s: string, rest: string)
    ensures ReadsString(s, EscapedPut(s, "\"" + rest), rest)
  {
    if s != "" {
      EscapeIsRead(s[0], EscapedPut(s[1..], "\"" + rest));
      EscapedIsRead(s[1..], rest);
    }
  }

  lemma QuotedIsRead(s: string, rest: string)
    ensures ReadsQuoted(s, QuotedPut(s, rest), rest)
  {
    EscapedIsRead(s, rest);
    assert QuotedPut(s, rest)[1..] == EscapedPut(s, "\"" + rest);
  }

  /** The canonical text of a value is a JSON text of that value without its null members. */
  lemma {:induction false} TextIsRead(v: Value, rest: string)
    ensures Reads(DropNulls(v), Put(v, rest), rest)
    decreases v, 1, 0
  {
    match v {
      case Str(s) => QuotedIsRead(s, rest);
      case Array(items) =>
        if items != [] { ItemsAreRead(items, DropNulls(v).items, rest); }
      case Object(m) =>
        if Keys(m) != [] { MembersAreRead(Keys(m), v, rest); }
        ObjectIsRead(Keys(m), v, rest);
      case _ =>
    }
  }

  lemma ObjectIsRead(keys: seq<string>, v: Value, rest: string)
    requires v.Object? && keys == Keys(v.members)
    requires keys != [] ==> ReadsMembers(keys, DropNulls(v), MembersPut(keys, v, "}" + rest), rest)
    ensures ReadsObject(keys, DropNulls(v), Put(v, rest), rest)
  {
    assert Elements(keys) == DropNulls(v).members.Keys;
    TextTotal();
    assert Put(v, rest) == "{" + MembersPut(keys, v, "}" + rest);
  }

  lemma {:induction false} ItemsAreRead(items: seq<Value>, dropped: seq<Value>, rest: string)
    requires |items| == |dropped| > 0 && forall i :: 0 <= i < |items| ==> dropped[i] == DropNulls(items[i])
    ensures ReadsItems(dropped, ItemsPut(items, "]" + rest), rest)
    decreases items, 0, 0
  {
    TextIsRead(items[0], ItemsRest(items, rest));
    if |items| > 1 { ItemsAreRead(items[1..], dropped[1..], rest); }
  }

  lemma {:induction false} MembersAreRead(keys: seq<string>, v: Value, rest: string)
    requires v.Object? && |keys| > 0 && forall k :: k in keys ==> k in v.members && v.members[k] != Null
    ensures ReadsMembers(keys, DropNulls(v), MembersPut(keys, v, "}" + rest), rest)
    decreases v, 0, |keys|
  {
    var more := MembersRest(keys, v, rest);
    var value := Put(v.members[keys[0]], more);
    QuotedIsRead(keys[0], ":" + value);
    TextIsRead(v.members[keys[0]], more);
    if |keys| > 1 { MembersAreRead(keys[1..], v, rest); }
  }

  ghost function Stripped(rotating: set<string>, v: Value): (r: Value)
    ensures r == Null <==> v == Null
  {
    match v
    case Array(items) =>
      Array(seq(|items|, i requires 0 <= i < |items| => Stripped(rotating, items[i])))
    case Object(m) => Object(map k | k in m && k !in rotating :: Stripped(rotating, m[k]))
    case _ => v
  }

  /** A value as the fingerprint sees it. */
  ghost function Seen(rotating: set<string>, v: Value): Value { DropNulls(Stripped(rotating, v)) }

  lemma SeenMembers(rotating: set<string>, v: Value)
    requires v.Object?
    ensures Seen(rotating, v).Object?
    ensures Seen(rotating, v).members.Keys == Significant(rotating, v.members)
    ensures forall k :: k in Significant(rotating, v.members) ==>
      Seen(rotating, v).members[k] == Seen(rotating, v.members[k])
  {
  }

  lemma {:induction false} SeenAgree(rotating: set<string>, a: Value, b: Value)
    ensures Seen(rotating, a) == Seen(rotating, b) <==> Agree(rotating, a, b)
    decreases a
  {
    match (a, b) {
      case (Array(xs), Array(ys)) =>
        var x, y := Seen(rotating, a), Seen(rotating, b);
        assert |x.items| == |xs| && |y.items| == |ys|;
        if |xs| == |ys| {
          forall i | 0 <= i < |xs|
            ensures x.items[i] == y.items[i] <==> Agree(rotating, xs[i], ys[i])
          {
            SeenAgree(rotating, xs[i], ys[i]);
          }
          assert x == y <==> x.items == y.items;
        }
      case (Object(m), Object(n)) =>
        SeenMembers(rotating, a);
        SeenMembers(rotating, b);
        if Significant(rotating, m) == Significant(rotating, n) {
          forall k | k in Significant(rotating, m)
            ensures Seen(rotating, m[k]) == Seen(rotating, n[k]) <==> Agree(rotating, m[k], n[k])
          {
            SeenAgree(rotating, m[k], n[k]);
          }
          assert Seen(rotating, a) == Seen(rotating, b)
            <==> Seen(rotating, a).members == Seen(rotating, b).members;
        }
      case _ =>
    }
  }

  /** Two payloads hash the same text if and only if they agree apart from rotating keys and null
      members: the fingerprint (before hashing) means exactly that. */
  lemma FingerprintTextExact(rotating: set<string>, a: Value, b: Value)
    ensures Text(Stripped(rotating, a)) == Text(Stripped(rotating, b)) <==> Agree(rotating, a, b)
  {
    CanonicalTextExact(Stripped(rotating, a), Stripped(rotating, b));
    SeenAgree(rotating, a, b);
  }

  // ---------------------------------------------------------------------------------------------
  // The code
  // ---------------------------------------------------------------------------------------------

  lemma {:induction false} EscapedPutAppends(s: string, rest: string, more: string)
    ensures EscapedPut(s, rest + more) == EscapedPut(s, rest) + more
  {
    if s != "" {
      EscapedPutAppends(s[1..], rest, more);
      assert Escape(s[0]) + (EscapedPut(s[1..], rest) + more)
        == (Escape(s[0]) + EscapedPut(s[1..], rest)) + more;
    }
  }

  lemma QuotedPutAppends(s: string, rest: string, more: string)
    ensures QuotedPut(s, rest + more) == QuotedPut(s, rest) + more
  {
    assert "\"" + (rest + more) == ("\"" + rest) + more;
    EscapedPutAppends(s, "\"" + rest, more);
  }

  lemma {:induction false} PutAppends(v: Value, rest: string, more: string)
    ensures Put(v, rest + more) == Put(v, rest) + more
    decreases v, 1, 0
  {
    match v {
      case Str(s) => QuotedPutAppends(s, rest, more);
      case Array(items) =>
        assert "]" + (rest + more) == ("]" + rest) + more;
        ItemsPutAppends(items, "]" + rest, more);
      case Object(m) =>
        assert "}" + (rest + more) == ("}" + rest) + more;
        MembersPutAppends(Keys(m), v, "}" + rest, more);
      case _ =>
    }
  }

  lemma {:induction false} ItemsPutAppends(items: seq<Value>, rest: string, more: string)
    ensures ItemsPut(items, rest + more) == ItemsPut(items, rest) + more
    decreases items, 0, 0
  {
    if |items| > 0 {
      var tail := if |items| == 1 then rest else "," + ItemsPut(items[1..], rest);
      ItemsPutAppends(items[1..], rest, more);
      assert "," + (ItemsPut(items[1..], rest) + more) == ("," + ItemsPut(items[1..], rest)) + more;
      PutAppends(items[0], tail, more);
    }
  }

  /** What follows the value of the first member. */
  ghost function MembersTail(keys: seq<string>, v: Value, rest: string): string
    requires v.Object? && |keys| > 0 && forall k :: k in keys ==> k in v.members
  {
    if |keys| == 1 then rest else "," + MembersPut(keys[1..], v, rest)
  }

  lemma FirstMember(keys: seq<string>, v: Value, rest: string)
    requires v.Object? && |keys| > 0 && forall k :: k in keys ==> k in v.members
    ensures MembersPut(keys, v, rest) ==
      QuotedPut(keys[0], ":" + Put(v.members[keys[0]], MembersTail(keys, v, rest)))
  {
  }

  lemma QuotedMemberAppends(key: string, text: string, longer: string, more: string)
    requires longer == text + more
    ensures QuotedPut(key, ":" + longer) == QuotedPut(key, ":" + text) + more
  {
    assert ":" + (text + more) == (":" + text) + more;
    QuotedPutAppends(key, ":" + text, more);
  }

  lemma {:induction false} MembersPutAppends(keys: seq<string>, v: Value, rest: string, more: string)
    requires v.Object? && forall k :: k in keys ==> k in v.members
    ensures MembersPut(keys, v, rest + more) == MembersPut(keys, v, rest) + more
    decreases v, 0, |keys|
  {
    if |keys| > 0 {
      var tail := MembersTail(keys, v, rest);
      MembersPutAppends(keys[1..], v, rest, more);
      assert "," + (MembersPut(keys[1..], v, rest) + more) == ("," + MembersPut(keys[1..], v, rest)) + more;
      assert MembersTail(keys, v, rest + more) == tail + more;
      PutAppends(v.members[keys[0]], tail, more);
      QuotedMemberAppends(keys[0], Put(v.members[keys[0]], tail), Put(v.members[keys[0]], tail + more), more);
      FirstMember(keys, v, rest);
      FirstMember(keys, v, rest + more);
    }
  }

  class Buffer {
    var bytes: string

    constructor ()
      ensures bytes == ""
    {
      bytes := "";
    }

    method Write(s: string)
      modifies this
      ensures bytes == old(bytes) + s
    {
      bytes := bytes + s;
    }
  }

  method WriteCanonical(value: Value, output: Buffer)
    modifies output
    ensures output.bytes == old(output.bytes) + Text(value)
    decreases value, 2
  {
    match value {
      case Null => output.Write("null");
      case Bool(b) => output.Write(if b then "true" else "false");
      case Number(n) => output.Write(n);
      case Str(s) => output.Write(QuotedPut(s, ""));
      case Array(items) => WriteArray(value, output);
      case Object(members) => WriteObject(value, output);
    }
  }

  /** What is still to be written once `index` items are. */
  ghost function ItemsLeft(items: seq<Value>, index: nat): string
    requires index <= |items|
  {
    if index == |items| then "]"
    else if index == 0 then ItemsPut(items, "]")
    else "," + ItemsPut(items[index..], "]")
  }

  lemma ItemsLeftStep(items: seq<Value>, index: nat)
    requires index < |items|
    ensures ItemsPut(items[index..], "]") == Put(items[index], ItemsLeft(items, index + 1))
  {
    assert items[index..][1..] == items[index + 1..];
  }

  method WriteArray(value: Value, output: Buffer)
    requires value.Array?
    modifies output
    ensures output.bytes == old(output.bytes) + Text(value)
    decreases value, 0
  {
    var items := value.items;
    ghost var start := output.bytes;
    output.Write("[");
    assert "]" + "" == "]";
    Regroup(start, "[", ItemsLeft(items, 0));
    for index := 0 to |items|
      invariant output.bytes + ItemsLeft(items, index) == start + Text(value)
    {
      if index != 0 {
        Regroup(output.bytes, ",", ItemsPut(items[index..], "]"));
        output.Write(",");
      }
      WriteItem(items, index, output);
    }
    output.Write("]");
  }

  method WriteItem(items: seq<Value>, index: nat, output: Buffer)
    requires index < |items|
    modifies output
    ensures output.bytes + ItemsLeft(items, index + 1) == old(output.bytes) + ItemsPut(items[index..], "]")
    decreases items, 0
  {
    ghost var start := output.bytes;
    ghost var left := ItemsLeft(items, index + 1);
    WriteCanonical(items[index], output);
    ItemsLeftStep(items, index);
    PutAppends(items[index], "", left);
    assert "" + left == left;
    Regroup(start, Text(items[index]), left);
  }

  ghost function MembersLeft(keys: seq<string>, index: nat, v: Value): string
    requires index <= |keys| && v.Object? && forall k :: k in keys ==> k in v.members
  {
    if index == |keys| then "}"
    else if index == 0 then MembersPut(keys, v, "}")
    else "," + MembersPut(keys[index..], v, "}")
  }

  lemma ObjectText(v: Value)
    requires v.Object?
    ensures Text(v) == "{" + MembersLeft(Keys(v.members), 0, v)
  {
    assert "}" + "" == "}";
    if |Keys(v.members)| == 0 { assert MembersPut(Keys(v.members), v, "}") == "}"; }
  }

  lemma MembersLeftStep(keys: seq<string>, index: nat, v: Value)
    requires index < |keys| && v.Object? && forall k :: k in keys ==> k in v.members
    ensures MembersPut(keys[index..], v, "}")
      == QuotedPut(keys[index], ":" + Put(v.members[keys[index]], MembersLeft(keys, index + 1, v)))
  {
    assert keys[index..][1..] == keys[index + 1..];
  }

  method WriteObject(value: Value, output: Buffer)
    requires value.Object?
    modifies output
    ensures output.bytes == old(output.bytes) + Text(value)
    decreases value, 1
  {
    var members := value.members;
    TextTotal();
    var keys := Sort(TextLess, NonNull(members));
    SortedUnique(TextLess, keys, Keys(members));
    ghost var start := output.bytes;
    output.Write("{");
    assert keys == Keys(members);
    ObjectText(value);
    Regroup(start, "{", MembersLeft(keys, 0, value));
    for index := 0 to |keys|
      invariant output.bytes + MembersLeft(keys, index, value) == start + Text(value)
    {
      if index != 0 {
        Regroup(output.bytes, ",", MembersPut(keys[index..], value, "}"));
        output.Write(",");
      }
      WriteMember(keys, index, value, output);
    }
    output.Write("}");
  }

  lemma MemberAppends(key: string, v: Value, left: string)
    ensures QuotedPut(key, ":" + Put(v, left)) == QuotedPut(key, "") + (":" + (Text(v) + left))
  {
    PutAppends(v, "", left);
    assert "" + left == left;
    var tail := ":" + (Text(v) + left);
    QuotedPutAppends(key, "", tail);
    assert "" + tail == tail;
  }

  method WriteMember(keys: seq<string>, index: nat, value: Value, output: Buffer)
    requires value.Object? && index < |keys| && forall k :: k in keys ==> k in value.members
    modifies output
    ensures output.bytes + MembersLeft(keys, index + 1, value)
      == old(output.bytes) + MembersPut(keys[index..], value, "}")
    decreases value, 0
  {
    ghost var start := output.bytes;
    ghost var left := MembersLeft(keys, index + 1, value);
    var key := keys[index];
    var member := value.members[key];
    output.Write(QuotedPut(key, ""));
    output.Write(":");
    WriteCanonical(member, output);
    MembersLeftStep(keys, index, value);
    MemberAppends(key, member, left);
    Regroup(start, QuotedPut(key, ""), ":" + (Text(member) + left));
    Regroup(start + QuotedPut(key, ""), ":", Text(member) + left);
    Regroup(start + QuotedPut(key, "") + ":", Text(member), left);
  }

  method StripRotatingFields(rotating: set<string>, value: Value) returns (stripped: Value)
    ensures stripped == Stripped(rotating, value)
    decreases value
  {
    stripped := value;
    match value {
      case Array(items) =>
        var done: seq<Value> := [];
        for i := 0 to |items|
          invariant |done| == i && forall j :: 0 <= j < i ==> done[j] == Stripped(rotating, items[j])
        {
          var item := StripRotatingFields(rotating, items[i]);
          done := done + [item];
        }
        stripped := Array(done);
        assert done == Stripped(rotating, value).items;
      case Object(members) =>
        var done := StripMembers(rotating, value);
        stripped := Object(done);
        assert done == Stripped(rotating, value).members;
      case _ =>
    }
  }

  /** Removes the rotating keys, then descends into every member that is left. */
  method StripMembers(rotating: set<string>, value: Value) returns (done: map<string, Value>)
    requires value.Object?
    ensures done.Keys == value.members.Keys - rotating
    ensures forall k :: k in done ==> done[k] == Stripped(rotating, value.members[k])
    decreases value, 0
  {
    var left := value.members.Keys - rotating;
    done := map[];
    while left != {}
      invariant forall k :: k in value.members && k !in rotating <==> k in left || k in done
      invariant forall k :: k in done ==> k !in left && done[k] == Stripped(rotating, value.members[k])
      decreases left
    {
      var k :| k in left;
      var member := StripRotatingFields(rotating, value.members[k]);
      done := done[k := member];
      left := left - {k};
    }
  }

  /** The text that `payload_fingerprint` hashes: it separates exactly the payloads that differ in
      something other than the rotating fields. */
  method FingerprintText(payload: Value) returns (text: string)
    ensures
      var rotating := {
        "token", "configuration_version_url", "filesystem_url", "terraform_url", "terraform_log_url",
        "json_plan_url", "state_artifact_url"};
      forall other :: text == Text(Stripped(rotating, other)) <==> Agree(rotating, payload, other)
  {
    var rotating := ROTATING;
    var value := StripRotatingFields(rotating, payload);
    var canonical := new Buffer();
    WriteCanonical(value, canonical);
    text := canonical.bytes;
    assert text == "" + Text(Stripped(rotating, payload)) == Text(Stripped(rotating, payload));
    forall other
      ensures text == Text(Stripped(rotating, other)) <==> Agree(rotating, payload, other)
    {
      FingerprintTextExact(rotating, payload, other);
    }
  }
}
