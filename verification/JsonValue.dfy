/** JSON values, and how a leaf becomes a token and a token a leaf. */
module JsonValue {
  import opened Common

  /** A dictionary keeps its entries in key order, as std::map does.  A double is known
      by one text only: where it is read, the text it was read from, and where it is printed,
      the text the C++ library gives it. */
  datatype Value =
    | Null
    | Bool(b: bool)
    | Int(n: int)
    | Double(text: string)
    | Str(s: string)
    | Blob
    | List(items: seq<Value>)
    | Dict(entries: seq<Entry>)

  datatype Entry = Entry(key: string, val: Value)

  predicate IsContainer(v: Value) { v.List? || v.Dict? }

  // ------------------------------------------------------- dictionaries

  predicate Less(a: string, b: string) {
    if b == "" then false
    else if a == "" then true
    else a[0] < b[0] || (a[0] == b[0] && Less(a[1..], b[1..]))
  }

  ghost predicate Sorted(entries: seq<Entry>) {
    forall i, j | 0 <= i < j < |entries| :: Less(entries[i].key, entries[j].key)
  }

  /** How many entries come before `key`. */
  function Place(entries: seq<Entry>, key: string): (i: nat)
    ensures i <= |entries|
    ensures forall j | 0 <= j < i :: Less(entries[j].key, key)
    ensures i < |entries| ==> !Less(entries[i].key, key)
  {
    if entries == [] || !Less(entries[0].key, key) then 0 else 1 + Place(entries[1..], key)
  }

  predicate Has(entries: seq<Entry>, key: string) {
    var i := Place(entries, key);
    i < |entries| && entries[i].key == key
  }

  /** `setRef`: an entry that exists is left as it is. */
  function Emplace(entries: seq<Entry>, key: string, val: Value): (r: seq<Entry>)
    ensures Place(entries, key) < |r| && r[Place(entries, key)].key == key
  {
    var i := Place(entries, key);
    if Has(entries, key) then entries else entries[..i] + [Entry(key, val)] + entries[i..]
  }

  /** `set`: an entry that exists is overwritten. */
  function Assign(entries: seq<Entry>, key: string, val: Value): seq<Entry> {
    Emplace(entries, key, val)[Place(entries, key) := Entry(key, val)]
  }

  lemma {:induction false} LessTransitive(a: string, b: string, c: string)
    requires Less(a, b) && Less(b, c)
    ensures Less(a, c)
  {
    if a != "" && a[0] == b[0] && b[0] == c[0] { LessTransitive(a[1..], b[1..], c[1..]); }
  }

  lemma {:induction false} LessTotal(a: string, b: string)
    ensures Less(a, b) || Less(b, a) || a == b
  {
    if a != "" && b != "" && a[0] == b[0] {
      LessTotal(a[1..], b[1..]);
      assert a == [a[0]] + a[1..] && b == [b[0]] + b[1..];
    }
  }

  /** A dictionary in key order stays so, whichever way a key is set. */
  lemma EmplaceKeepsOrder(entries: seq<Entry>, key: string, val: Value)
    requires Sorted(entries)
    ensures Sorted(Emplace(entries, key, val)) && Sorted(Assign(entries, key, val))
  {
    var i := Place(entries, key);
    if !Has(entries, key) {
      forall j | i <= j < |entries|
        ensures Less(key, entries[j].key)
      {
        LessTotal(entries[i].key, key);
        if i < j { LessTransitive(key, entries[i].key, entries[j].key); }
      }
    }
  }

  /** The order is that of std::string: at the first difference the smaller character, or the
      shorter string where there is none. */
  lemma {:induction false} LessMeans(a: string, b: string)
    ensures Less(a, b) <==> exists i | 0 <= i <= |a| :: FirstDifference(a, b, i)
  {
    if b == "" || a == "" || a[0] != b[0] {
      if Less(a, b) { assert FirstDifference(a, b, 0); }
      forall i | 0 <= i <= |a| && FirstDifference(a, b, i) ensures Less(a, b) {
        if i > 0 { assert a[..i][0] == b[..i][0]; }
      }
    } else {
      LessMeans(a[1..], b[1..]);
      if Less(a, b) {
        var i :| 0 <= i <= |a[1..]| && FirstDifference(a[1..], b[1..], i);
        assert a[..i + 1] == [a[0]] + a[1..][..i] && b[..i + 1] == [b[0]] + b[1..][..i];
        assert FirstDifference(a, b, i + 1);
      }
      forall i | 0 <= i <= |a| && FirstDifference(a, b, i) ensures Less(a, b) {
        assert i > 0;
        assert a[1..][..i - 1] == a[..i][1..] && b[1..][..i - 1] == b[..i][1..];
        assert FirstDifference(a[1..], b[1..], i - 1);
      }
    }
  }

  ghost predicate FirstDifference(a: string, b: string, i: nat) {
    i <= |a| && i < |b| && a[..i] == b[..i] && (i == |a| || a[i] < b[i])
  }

  /** What a list of entries says, in whatever order they are: of two under one key the last. */
  ghost function AsMap(entries: seq<Entry>): map<string, Value> {
    if entries == [] then map[] else
    var last := entries[|entries| - 1];
    AsMap(entries[..|entries| - 1])[last.key := last.val]
  }

  lemma {:induction false} NotLessItself(a: string)
    ensures !Less(a, a)
  {
    if a != "" { NotLessItself(a[1..]); }
  }

  lemma {:induction false} AsMapConcat(a: seq<Entry>, b: seq<Entry>)
    ensures AsMap(a + b) == AsMap(a) + AsMap(b)
  {
    if b == [] {
      assert a + b == a;
    } else {
      assert (a + b)[..|a + b| - 1] == a + b[..|b| - 1];
      AsMapConcat(a, b[..|b| - 1]);
    }
  }

  lemma AsMapMore(entries: seq<Entry>, last: Entry)
    ensures AsMap(entries + [last]) == AsMap(entries)[last.key := last.val]
  {
    assert (entries + [last])[..|entries|] == entries;
  }

  lemma {:induction false} NotAmong(entries: seq<Entry>, key: string)
    requires forall i | 0 <= i < |entries| :: entries[i].key != key
    ensures key !in AsMap(entries)
  {
    if entries != [] { NotAmong(entries[..|entries| - 1], key); }
  }

  lemma {:induction false} Among(entries: seq<Entry>, i: nat)
    requires i < |entries|
    ensures entries[i].key in AsMap(entries)
  {
    if i < |entries| - 1 { Among(entries[..|entries| - 1], i); }
  }

  lemma {:induction false} FoundAmong(entries: seq<Entry>, key: string) returns (i: nat)
    requires key in AsMap(entries)
    ensures i < |entries| && entries[i].key == key
  {
    var n := |entries| - 1;
    i := n;
    if entries[n].key != key { i := FoundAmong(entries[..n], key); }
  }

  /** What lies before the place of a key, and what lies behind it. */
  function Before(entries: seq<Entry>, key: string): seq<Entry> { entries[..Place(entries, key)] }

  function Behind(entries: seq<Entry>, key: string): seq<Entry> {
    entries[if Has(entries, key) then Place(entries, key) + 1 else Place(entries, key)..]
  }

  lemma NowhereElse(entries: seq<Entry>, key: string)
    requires Sorted(entries)
    ensures key !in AsMap(Before(entries, key)) && key !in AsMap(Behind(entries, key))
  {
    hide Less, AsMap;
    var i := Place(entries, key);
    NotLessItself(key);
    NotAmong(Before(entries, key), key);
    var rest := Behind(entries, key);
    forall j | 0 <= j < |rest|
      ensures rest[j].key != key
    {
      var k := |entries| - |rest| + j;
      assert rest[j] == entries[k];
      if i < k { assert Less(entries[i].key, entries[k].key); }
    }
    NotAmong(rest, key);
  }

  lemma Around(entries: seq<Entry>, key: string, val: Value)
    ensures Has(entries, key) ==>
              Emplace(entries, key, val) == entries == Before(entries, key) + [entries[Place(entries, key)]] + Behind(entries, key)
    ensures !Has(entries, key) ==>
              Emplace(entries, key, val) == Assign(entries, key, val) && entries == Before(entries, key) + Behind(entries, key)
  {
    hide Place;
  }

  lemma AssignAround(entries: seq<Entry>, key: string, val: Value)
    ensures Assign(entries, key, val) == Before(entries, key) + [Entry(key, val)] + Behind(entries, key)
  {
    hide Place;
  }

  /** Setting a key leaves all others as they are: `set` overwrites, `setRef` does not. */
  lemma SetsOneKey(entries: seq<Entry>, key: string, val: Value)
    requires Sorted(entries)
    ensures Has(entries, key) <==> key in AsMap(entries)
    ensures AsMap(Assign(entries, key, val)) == AsMap(entries)[key := val]
    ensures AsMap(Emplace(entries, key, val)) == if key in AsMap(entries) then AsMap(entries) else AsMap(entries)[key := val]
  {
    hide AsMap, Less, Sorted, Assign, Emplace, Before, Behind;
    NowhereElse(entries, key);
    Around(entries, key, val);
    AssignAround(entries, key, val);
    var a, b := Before(entries, key), Behind(entries, key);
    Parts(a, Entry(key, val), b);
    if Has(entries, key) {
      Parts(a, entries[Place(entries, key)], b);
    } else {
      AsMapConcat(a, b);
    }
  }

  lemma Parts(a: seq<Entry>, e: Entry, b: seq<Entry>)
    requires e.key !in AsMap(b)
    ensures AsMap(a + [e] + b) == (AsMap(a) + AsMap(b))[e.key := e.val]
  {
    hide AsMap;
    AsMapMore(a, e);
    AsMapConcat(a + [e], b);
  }

  lemma LastKey(a: seq<Entry>, key: string)
    requires a != [] && Sorted(a) && key in AsMap(a)
    ensures key == a[|a| - 1].key || Less(key, a[|a| - 1].key)
  {
    hide AsMap;
    var i := FoundAmong(a, key);
  }

  lemma RestOfMap(a: seq<Entry>)
    requires a != [] && Sorted(a)
    ensures a[|a| - 1].key in AsMap(a) && AsMap(a)[a[|a| - 1].key] == a[|a| - 1].val
    ensures AsMap(a[..|a| - 1]) == AsMap(a) - {a[|a| - 1].key}
  {
    hide AsMap, Less;
    var n := |a| - 1;
    assert a == a[..n] + [a[n]];
    AsMapMore(a[..n], a[n]);
    NotLessItself(a[n].key);
    forall i | 0 <= i < n ensures a[i].key != a[n].key {
      assert Less(a[i].key, a[n].key);
    }
    NotAmong(a[..n], a[n].key);
  }

  /** So the entries in key order are determined by what they say. */
  lemma {:induction false} SortedIsUnique(a: seq<Entry>, b: seq<Entry>)
    requires Sorted(a) && Sorted(b) && AsMap(a) == AsMap(b)
    ensures a == b
  {
    hide AsMap, Less;
    if a == [] || b == [] {
      if a != [] { RestOfMap(a); }
      if b != [] { RestOfMap(b); }
      NoEntries();
    } else {
      var last, last' := a[|a| - 1], b[|b| - 1];
      RestOfMap(a);
      RestOfMap(b);
      LastKey(a, last'.key);
      LastKey(b, last.key);
      NotLessItself(last.key);
      if Less(last.key, last'.key) && Less(last'.key, last.key) { LessTransitive(last.key, last'.key, last.key); }
      SortedIsUnique(a[..|a| - 1], b[..|b| - 1]);
      assert a == a[..|a| - 1] + [last] && b == b[..|b| - 1] + [last'];
    }
  }

  lemma NoEntries()
    ensures AsMap([]) == map[]
  {
  }

  /** A key after all others goes to the end. */
  lemma PlaceLast(entries: seq<Entry>, key: string)
    requires forall j | 0 <= j < |entries| :: Less(entries[j].key, key)
    ensures Place(entries, key) == |entries|
  {
  }

  // ------------------------------------------------------------- leaves

  const INT_MIN := -0x8000_0000_0000_0000
  const INT_MAX := 0x7FFF_FFFF_FFFF_FFFF

  function Digit(d: nat): char
    requires d < 10
  {
    "0123456789"[d]
  }

  predicate IsDigit(c: char) { '0' <= c <= '9' }

  function DigitValue(c: char): nat
    requires IsDigit(c)
  {
    c as int - '0' as int
  }

  function Decimal(n: nat): (s: string)
    ensures s != "" && forall i | 0 <= i < |s| :: IsDigit(s[i])
  {
    if n < 10 then [Digit(n)] else Decimal(n / 10) + [Digit(n % 10)]
  }

  /** std::to_string */
  function IntText(n: int): string { if n < 0 then "-" + Decimal(-n) else Decimal(n) }

  /** What `streamifyBasic` writes; it refuses a blob. */
  function LeafText(v: Value): string {
    match v
    case Null => "null"
    case Bool(b) => if b then "true" else "false"
    case Int(n) => IntText(n)
    case Double(text) => text
    case Str(s) => "\"" + s + "\""
    case _ => ""
  }

  /** Number of digits a text starts with. */
  function DigitRun(s: string): (n: nat)
    ensures n <= |s| && (forall i | 0 <= i < n :: IsDigit(s[i])) && (n < |s| ==> !IsDigit(s[n]))
  {
    if s == "" || !IsDigit(s[0]) then 0 else 1 + DigitRun(s[1..])
  }

  function NumberOf(digits: string): nat
    requires forall i | 0 <= i < |digits| :: IsDigit(digits[i])
  {
    if digits == "" then 0 else NumberOf(digits[..|digits| - 1]) * 10 + DigitValue(digits[|digits| - 1])
  }

  function SkipSpace(s: string): string {
    if s != "" && s[0] in " \t\n\r\U{0B}\U{0C}" then SkipSpace(s[1..]) else s
  }

  /** std::stoll: space, a sign, digits, then anything; None where it throws. */
  function ParseInt(text: string): Option<int> {
    var s := SkipSpace(text);
    var negative := s != "" && s[0] == '-';
    var digits := if s != "" && (s[0] == '-' || s[0] == '+') then s[1..] else s;
    var run := DigitRun(digits);
    if run == 0 then None else
    var m: int := NumberOf(digits[..run]);
    var n := if negative then -m else m;
    if INT_MIN <= n <= INT_MAX then Some(n) else None
  }

  /** `substr(1, size - 2)`, with the unsigned wrap-around for a single character;
      None where it throws. */
  function Unquote(token: string): Option<string> {
    if |token| == 0 then None else if |token| == 1 then Some("") else Some(token[1..|token| - 1])
  }

  predicate HasDot(token: string) { exists i | 1 <= i < |token| :: token[i] == '.' }

  /** `parseBasic`; None where it throws. */
  function ParseBasic(token: string): Option<Value> {
    if token == "null" then Some(Null)
    else if token == "true" then Some(Bool(true))
    else if token == "false" then Some(Bool(false))
    else if token != "" && token[0] == '"' then
      var s := Unquote(token);
      Some(Str(s.value))
    else if HasDot(token) then Some(Double(token))
    else
      var n := ParseInt(token);
      if n.None? then None else Some(Int(n.value))
  }

  predicate IsKeyword(token: string) { token != "" && token[0] in "}]:," }

  /** A leaf that reading can give back. */
  predicate LeafInRange(v: Value) { v.Null? || v.Bool? || v.Str? || (v.Int? && INT_MIN <= v.n <= INT_MAX) }

  lemma {:induction false} NumberOfDecimal(n: nat)
    ensures NumberOf(Decimal(n)) == n
  {
    if n >= 10 {
      NumberOfDecimal(n / 10);
      assert Decimal(n)[..|Decimal(n)| - 1] == Decimal(n / 10);
    }
  }

  lemma {:induction false} DigitRunAll(s: string)
    requires forall i | 0 <= i < |s| :: IsDigit(s[i])
    ensures DigitRun(s) == |s|
  {
    if s != "" { DigitRunAll(s[1..]); }
  }

  lemma ParseIntText(n: int)
    requires INT_MIN <= n <= INT_MAX
    ensures ParseInt(IntText(n)) == Some(n)
  {
    var m := if n < 0 then -n else n;
    var digits := Decimal(m);
    assert SkipSpace(IntText(n)) == IntText(n);
    DigitRunAll(digits);
    NumberOfDecimal(m);
    assert digits[..|digits|] == digits;
    if n < 0 { assert IntText(n)[1..] == digits; }
  }

  /** Reading what was written gives the leaf back. */
  lemma LeafRoundTrip(v: Value)
    requires LeafInRange(v)
    ensures ParseBasic(LeafText(v)) == Some(v)
    ensures LeafText(v) != "" && !IsKeyword(LeafText(v)) && LeafText(v) != "{" && LeafText(v) != "["
  {
    match v
    case Int(n) => IntRoundTrip(n);
    case Str(s) => StrRoundTrip(s);
    case _ =>
  }

  lemma IntRoundTrip(n: int)
    requires INT_MIN <= n <= INT_MAX
    ensures ParseBasic(IntText(n)) == Some(Int(n))
    ensures IntText(n) != "" && (IsDigit(IntText(n)[0]) || IntText(n)[0] == '-')
  {
    var text := IntText(n);
    ParseIntText(n);
    hide ParseInt, Decimal;
    assert forall i | 1 <= i < |text| :: IsDigit(text[i]);
  }

  lemma StrRoundTrip(s: string)
    ensures ParseBasic("\"" + s + "\"") == Some(Str(s))
  {
    var token := "\"" + s + "\"";
    assert token[0] == '"' && token[1..|token| - 1] == s;
    hide ParseInt, HasDot;
  }

  // ---------------------------------------- numbers that printing would not have written

  predicate Whitespace(c: char) { c == ' ' || c == '\t' || c == '\n' || c == '\r' || c == '\U{0B}' || c == '\U{0C}' }

  lemma {:induction false} SkipsSpace(space: string, rest: string)
    requires (forall i | 0 <= i < |space| :: Whitespace(space[i])) && (rest == "" || !Whitespace(rest[0]))
    ensures SkipSpace(space + rest) == rest
  {
    if space == "" {
      assert space + rest == rest;
    } else {
      assert (space + rest)[1..] == space[1..] + rest;
      SkipsSpace(space[1..], rest);
    }
  }

  lemma {:induction false} RunOfDigits(digits: string, rest: string)
    requires (forall i | 0 <= i < |digits| :: IsDigit(digits[i])) && (rest == "" || !IsDigit(rest[0]))
    ensures DigitRun(digits + rest) == |digits|
  {
    if digits == "" {
      assert digits + rest == rest;
    } else {
      assert (digits + rest)[1..] == digits[1..] + rest;
      RunOfDigits(digits[1..], rest);
    }
  }

  predicate IsSign(s: string) { s == "" || s == "+" || s == "-" }

  lemma SignSplits(sign: string, more: string)
    requires IsSign(sign) && (sign == "" && more != "" ==> more[0] != '+' && more[0] != '-')
    ensures var s := sign + more;
            && (s != "" && s[0] == '-' <==> sign == "-")
            && (if s != "" && (s[0] == '-' || s[0] == '+') then s[1..] else s) == more
  {
    if sign == "" { assert sign + more == more; } else { assert (sign + more)[1..] == more; }
  }

  /** An integer is read behind white space and a sign, up to the first character that is no
      digit, and it must fit 64 bits; without a digit there is none. */
  lemma ReadsIntegers(space: string, sign: string, digits: string, rest: string)
    requires (forall i | 0 <= i < |space| :: Whitespace(space[i])) && IsSign(sign)
    requires (forall i | 0 <= i < |digits| :: IsDigit(digits[i])) && (rest == "" || !IsDigit(rest[0]))
    requires sign == "" && digits == "" && rest != "" ==> !Whitespace(rest[0]) && rest[0] != '+' && rest[0] != '-'
    ensures var m: int := NumberOf(digits);
            var n := if sign == "-" then -m else m;
            ParseInt(space + (sign + (digits + rest))) ==
            if digits != "" && -0x8000_0000_0000_0000 <= n <= 0x7FFF_FFFF_FFFF_FFFF then Some(n) else None
  {
    hide ParseInt;
    SkipsSpace(space, sign + (digits + rest));
    SignSplits(sign, digits + rest);
    ReadsDigits(space + (sign + (digits + rest)), sign + (digits + rest), sign, digits, rest);
  }

  lemma ReadsDigits(text: string, s: string, sign: string, digits: string, rest: string)
    requires SkipSpace(text) == s && (s != "" && s[0] == '-' <==> sign == "-")
    requires (if s != "" && (s[0] == '-' || s[0] == '+') then s[1..] else s) == digits + rest
    requires (forall i | 0 <= i < |digits| :: IsDigit(digits[i])) && (rest == "" || !IsDigit(rest[0]))
    ensures var m: int := NumberOf(digits);
            var n := if sign == "-" then -m else m;
            ParseInt(text) == if digits != "" && -0x8000_0000_0000_0000 <= n <= 0x7FFF_FFFF_FFFF_FFFF then Some(n) else None
  {
    hide SkipSpace, DigitRun, NumberOf;
    RunOfDigits(digits, rest);
    assert (digits + rest)[..|digits|] == digits;
  }

  /** Digits count by ten. */
  lemma DigitsByTen()
    ensures Decimal(9) == "9" && Decimal(10) == "10" && NumberOf("10") == 10 && NumberOf("007") == 7
  {
    NumberOfDecimal(10);
    assert "007"[..2] == "00" && "00"[..1] == "0" && "0"[..0] == "";
  }
}
