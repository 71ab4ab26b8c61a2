/** The handful of PHP runtime behaviours the pagination code leans on:
    loose values and their truthiness, string conversion, `strpos`,
    `join`, the insert-only form of `array_splice`, and `sprintf` over a
    template made of literal pieces and positional `%N$s` slots. */
module PhpRuntime {

  datatype Option<+T> = None | Some(value: T)

  /** A PHP value as it can appear in an options array. */
  datatype Value = Str(s: string) | Int(i: int) | Bool(b: bool) | Null

  /** PHP truthiness of a string: only "" and "0" are falsy. */
  predicate TruthyString(s: string) {
    s != "" && s != "0"
  }

  /** PHP truthiness of a possibly-null string (a lookup that may return nothing). */
  predicate TruthyOption(o: Option<string>) {
    o.Some? && TruthyString(o.value)
  }

  /** PHP truthiness of a loose value. For every value modelled here it
      agrees with the truthiness of the value's string form. */
  predicate Truthy(v: Value)
    ensures Truthy(v) == TruthyString(ToStr(v))
  {
    match v
    case Str(s) => TruthyString(s)
    case Int(i) =>
      assert i > 0 ==> DigitsValue(ToStr(v)) == i;
      assert i < 0 ==> ToStr(v)[0] == '-';
      assert i == 0 ==> ToStr(v) == "0";
      i != 0
    case Bool(b) => b
    case Null => false
  }

  /** `isset($m[$k])`: the key is present and its value is not null. */
  predicate IsSet(m: map<string, Value>, k: string) {
    k in m && m[k] != Null
  }

  function DigitChar(d: nat): (c: char)
    requires d < 10
    ensures '0' <= c <= '9'
    ensures c as int - '0' as int == d
  {
    ('0' as int + d) as char
  }

  /** The number a string of decimal digits denotes (an independent
      reading of decimal notation, from the least significant digit). */
  function DigitsValue(s: string): int {
    if |s| == 0 then 0 else DigitsValue(s[..|s| - 1]) * 10 + (s[|s| - 1] as int - '0' as int)
  }

  /** Decimal notation of a natural number, most significant digit first. */
  function NatDigits(n: nat): (r: string)
    ensures 0 < |r|
    ensures forall k :: 0 <= k < |r| ==> '0' <= r[k] <= '9'
    ensures DigitsValue(r) == n
    ensures (n < 10) == (|r| == 1)
    ensures r[0] == '0' ==> n == 0
  {
    if n < 10 then [DigitChar(n)]
    else
      var r := NatDigits(n / 10) + [DigitChar(n % 10)];
      assert r[..|r| - 1] == NatDigits(n / 10);
      r
  }

  /** PHP's conversion of a value to string, as done by `.` and `%s`:
      strings stay as they are, integers become their decimal notation
      (with a leading '-' when negative), true becomes "1", false and null
      become "". */
  function ToStr(v: Value): (r: string)
    ensures v.Str? ==> r == v.s
    ensures v.Int? && v.i >= 0 ==>
      0 < |r| && DigitsValue(r) == v.i && forall k :: 0 <= k < |r| ==> '0' <= r[k] <= '9'
    ensures v.Int? && v.i < 0 ==>
      1 < |r| && r[0] == '-' && DigitsValue(r[1..]) == -v.i && forall k :: 1 <= k < |r| ==> '0' <= r[k] <= '9'
    ensures v == Int(0) ==> r == "0"
    ensures v.Int? && v.i > 0 ==> r[0] != '0'
    ensures v.Int? && v.i < 0 ==> 1 < |r| && r[1] != '0'
    ensures v == Bool(true) ==> r == "1"
    ensures (r == "") == (v == Null || v == Bool(false) || v == Str(""))
  {
    match v
    case Str(s) => s
    case Int(i) =>
      if i < 0 then
        var r := "-" + NatDigits(-i);
        assert r[1..] == NatDigits(-i);
        r
      else NatDigits(i)
    case Bool(b) => if b then "1" else ""
    case Null => ""
  }

  /** `needle` occurs in `haystack` starting at index `j`. */
  predicate OccursAt(haystack: string, needle: string, j: nat) {
    j + |needle| <= |haystack| && haystack[j..j + |needle|] == needle
  }

  /** `strpos($haystack, $needle)`: the index of the first occurrence, or
      nothing (PHP's `false`) when there is none. */
  function StrPos(haystack: string, needle: string): (r: Option<nat>)
    ensures r.Some? ==> OccursAt(haystack, needle, r.value)
    ensures r.Some? ==> forall j: nat :: j < r.value ==> !OccursAt(haystack, needle, j)
    ensures r.None? ==> forall j: nat :: !OccursAt(haystack, needle, j)
  {
    StrPosFrom(haystack, needle, 0)
  }

  function StrPosFrom(haystack: string, needle: string, from: nat): (r: Option<nat>)
    requires from <= |haystack|
    requires forall j: nat :: j < from ==> !OccursAt(haystack, needle, j)
    ensures r.Some? ==> from <= r.value && OccursAt(haystack, needle, r.value)
    ensures r.Some? ==> forall j: nat :: j < r.value ==> !OccursAt(haystack, needle, j)
    ensures r.None? ==> forall j: nat :: !OccursAt(haystack, needle, j)
    decreases |haystack| - from
  {
    if from + |needle| > |haystack| then None
    else if haystack[from..from + |needle|] == needle then Some(from)
    else StrPosFrom(haystack, needle, from + 1)
  }

  /** The summed lengths of the parts. */
  function TotalLength(parts: seq<string>): nat {
    if |parts| == 0 then 0 else |parts[0]| + TotalLength(parts[1..])
  }

  /** `join($sep, $parts)` (alias of `implode`). */
  function Join(sep: string, parts: seq<string>): (r: string)
    ensures |parts| == 1 ==> r == parts[0]
    ensures |r| == TotalLength(parts) + (if |parts| == 0 then 0 else (|parts| - 1) * |sep|)
  {
    if |parts| == 0 then ""
    else if |parts| == 1 then parts[0]
    else parts[0] + sep + Join(sep, parts[1..])
  }

  /** Joining two non-empty lists puts exactly one separator between them. */
  lemma {:induction false} JoinAppend(sep: string, a: seq<string>, b: seq<string>)
    requires |a| > 0 && |b| > 0
    ensures Join(sep, a + b) == Join(sep, a) + sep + Join(sep, b)
  {
    if |a| == 1 {
      assert (a + b)[1..] == b;
    } else {
      assert (a + b)[1..] == a[1..] + b;
      JoinAppend(sep, a[1..], b);
    }
  }

  /** Every part stands verbatim in the joined string, between the join of
      the parts before it and the join of the parts after it, with one
      separator on each side that has neighbours. */
  lemma JoinAt(sep: string, parts: seq<string>, i: nat)
    requires i < |parts|
    ensures Join(sep, parts) ==
      Join(sep, parts[..i]) + (if i > 0 then sep else "") + parts[i]
      + (if i + 1 < |parts| then sep else "") + Join(sep, parts[i + 1..])
  {
    var before, here, after := parts[..i], [parts[i]], parts[i + 1..];
    assert parts == before + here + after;
    assert Join(sep, here) == parts[i];
    if 0 < |after| {
      JoinAppend(sep, before + here, after);
      assert Join(sep, parts) == Join(sep, before + here) + sep + Join(sep, after);
    } else {
      assert parts == before + here;
    }
    if 0 < |before| {
      JoinAppend(sep, before, here);
    }
  }

  /** The position at which `array_splice($a, $offset, 0, $x)` inserts:
      a negative offset counts from the end, and both are clamped to the array. */
  function SplicePosition(length: nat, offset: int): (p: nat)
    ensures p <= length
    ensures 0 <= offset <= length ==> p == offset
    ensures offset < 0 && 0 <= length + offset ==> p == length + offset
  {
    if offset >= 0 then (if offset <= length then offset else length)
    else if length + offset >= 0 then length + offset else 0
  }

  /** `array_splice($a, $offset, 0, $x)` on a list: insert one element,
      remove none. */
  function ArraySplice<T>(a: seq<T>, offset: int, x: T): (r: seq<T>)
    ensures |r| == |a| + 1
    ensures r[SplicePosition(|a|, offset)] == x
    ensures r[..SplicePosition(|a|, offset)] == a[..SplicePosition(|a|, offset)]
    ensures r[SplicePosition(|a|, offset) + 1..] == a[SplicePosition(|a|, offset)..]
  {
    var p := SplicePosition(|a|, offset);
    a[..p] + [x] + a[p..]
  }

  /** The three positional conversions `%1$s`, `%2$s` and `%3$s`. */
  datatype Slot = Arg1 | Arg2 | Arg3

  /** A format string, already split into literal text and slots. */
  datatype Piece = Lit(text: string) | Hole(slot: Slot)
  type Template = seq<Piece>

  /** What one piece of a template renders to. */
  function PieceText(p: Piece, a1: string, a2: string, a3: string): string {
    match p
    case Lit(text) => text
    case Hole(Arg1) => a1
    case Hole(Arg2) => a2
    case Hole(Arg3) => a3
  }

  /** The literal text of a template, slots left out. */
  function LiteralText(t: Template): string {
    if t == [] then "" else (if t[0].Lit? then t[0].text else "") + LiteralText(t[1..])
  }

  /** The template has no slots at all. */
  predicate NoSlots(t: Template) {
    t == [] || (t[0].Lit? && NoSlots(t[1..]))
  }

  /** `sprintf($template, $a1, $a2, $a3)`: each slot is replaced by its
      argument verbatim (arguments are never reinterpreted as formats). */
  function Sprintf(t: Template, a1: string, a2: string, a3: string): (r: string)
    ensures NoSlots(t) ==> r == LiteralText(t)
  {
    if t == [] then "" else PieceText(t[0], a1, a2, a3) + Sprintf(t[1..], a1, a2, a3)
  }

  /** Formatting distributes over concatenation of templates. */
  lemma {:induction false} SprintfAppend(t: Template, u: Template, a1: string, a2: string, a3: string)
    ensures Sprintf(t + u, a1, a2, a3) == Sprintf(t, a1, a2, a3) + Sprintf(u, a1, a2, a3)
  {
    if t != [] {
      assert (t + u)[1..] == t[1..] + u;
      SprintfAppend(t[1..], u, a1, a2, a3);
    } else {
      assert t + u == u;
    }
  }
}
