/** Printing a value and reading the text back. */
module JsonRoundTrip {
  import opened Common
  import opened JsonValue
  import opened JsonParser
  import opened JsonPrinter

  /** A text that ends neither in the middle of an escape nor at a quote of its own:
      every quote follows a backslash that is not itself escaped. */
  predicate Clean(s: string) {
    if s == "" then true
    else if s[0] == '\\' then |s| >= 2 && Clean(s[2..])
    else s[0] != '"' && Clean(s[1..])
  }

  /** Lists and dictionaries over null, booleans, 64-bit integers and strings, with the
      dictionaries in key order. */
  ghost predicate Plain(v: Value) {
    match v
    case List(items) => forall i | 0 <= i < |items| :: Plain(items[i])
    case Dict(entries) => Sorted(entries) && forall i | 0 <= i < |entries| :: Plain(entries[i].val)
    case _ => LeafInRange(v)
  }

  /** The same in any key order, and with keys repeated. */
  ghost predicate Leaves(v: Value) {
    match v
    case List(items) => forall i | 0 <= i < |items| :: Leaves(items[i])
    case Dict(entries) => forall i | 0 <= i < |entries| :: Leaves(entries[i].val)
    case _ => LeafInRange(v)
  }

  lemma {:induction false} PlainLeaves(v: Value)
    requires Plain(v)
    ensures Leaves(v)
  {
    match v
    case List(items) => forall i | 0 <= i < |items| ensures Leaves(items[i]) { PlainLeaves(items[i]); }
    case Dict(entries) => forall i | 0 <= i < |entries| ensures Leaves(entries[i].val) { PlainLeaves(entries[i].val); }
    case _ =>
  }

  predicate CleanKeys(v: Value) {
    match v
    case List(items) => forall i | 0 <= i < |items| :: CleanKeys(items[i])
    case Dict(entries) => forall i | 0 <= i < |entries| :: Clean(entries[i].key) && CleanKeys(entries[i].val)
    case _ => true
  }

  predicate CleanStrings(v: Value) {
    match v
    case Str(s) => Clean(s)
    case List(items) => forall i | 0 <= i < |items| :: CleanStrings(items[i])
    case Dict(entries) => forall i | 0 <= i < |entries| :: CleanStrings(entries[i].val)
    case _ => true
  }

  lemma {:induction false} PlainPrints(v: Value)
    requires Plain(v)
    ensures Printable(v)
  {
    match v
    case List(items) =>
      forall i | 0 <= i < |items| ensures Printable(items[i]) { PlainPrints(items[i]); }
    case Dict(entries) =>
      forall i | 0 <= i < |entries| ensures Printable(entries[i].val) {
        PlainPrints(entries[i].val);
      }
    case _ =>
  }

  // ---------------------------------------------------- text to tokens

  function Tokens(v: Value): seq<string> {
    match v
    case List(items) => ["["] + ItemTokens(items, 0) + ["]"]
    case Dict(entries) => ["{"] + MemberTokens(entries, 0) + ["}"]
    case _ => [LeafText(v)]
  }

  function Comma(i: nat): seq<string> { if i > 0 then [","] else [] }

  function ItemTokens(items: seq<Value>, i: nat): seq<string>
    requires i <= |items|
    decreases items, |items| - i
  {
    if i == |items| then [] else Comma(i) + Tokens(items[i]) + ItemTokens(items, i + 1)
  }

  function MemberTokens(entries: seq<Entry>, i: nat): seq<string>
    requires i <= |entries|
    decreases entries, |entries| - i
  {
    if i == |entries| then []
    else Comma(i) + ["\"" + entries[i].key + "\"", ":"] + Tokens(entries[i].val) + MemberTokens(entries, i + 1)
  }

  lemma {:induction false} ScanString(s: string, text: string, rest: string)
    requires Clean(s)
    ensures Scan(s + "\"" + rest, InString(text)) == Cons(text + s + "\"", Scan(rest, Between))
    decreases |s|
  {
    var input := s + "\"" + rest;
    if s == "" {
      assert input[1..] == rest;
      assert text + s == text;
    } else if s[0] == '\\' {
      assert input[1..][1..] == s[2..] + "\"" + rest;
      assert s == ['\\', s[1]] + s[2..];
      ScanString(s[2..], text + ['\\', s[1]], rest);
      assert text + ['\\', s[1]] + s[2..] == text + s;
    } else {
      assert input[1..] == s[1..] + "\"" + rest;
      ScanString(s[1..], text + [s[0]], rest);
      assert text + [s[0]] + s[1..] == text + s;
    }
  }

  predicate IsWord(w: string) {
    w != "" && forall i | 0 <= i < |w| :: !IsStructural(w[i]) && w[i] != '"' && !IsSpace(w[i])
  }

  lemma {:induction false} ScanWord(w: string, text: string, rest: string)
    requires w == "" || IsWord(w)
    requires rest != "" && IsKeyword([rest[0]])
    ensures Scan(w + rest, InWord(text)) == Cons(text + w, Scan(rest, Between))
    decreases |w|
  {
    if w == "" {
      assert w + rest == rest && text + w == text;
    } else {
      assert (w + rest)[1..] == w[1..] + rest;
      ScanWord(w[1..], text + [w[0]], rest);
      assert text + [w[0]] + w[1..] == text + w;
    }
  }

  lemma LeafIsWord(v: Value)
    requires LeafInRange(v) && !v.Str?
    ensures IsWord(LeafText(v))
  {
    if v.Int? {
      var m := if v.n < 0 then -v.n else v.n;
      assert forall i | 0 <= i < |Decimal(m)| :: IsDigit(Decimal(m)[i]);
      assert forall c: char | IsDigit(c) || c == '-' :: !IsStructural(c) && c != '"' && !IsSpace(c);
    }
  }

  /** Whatever follows, once a value is complete, must not run on from a word. */
  predicate Stops(v: Value, rest: string) { IsContainer(v) || v.Str? || (rest != "" && IsKeyword([rest[0]])) }

  lemma ScanLeaf(v: Value, rest: string)
    requires LeafInRange(v) && CleanStrings(v) && Stops(v, rest)
    ensures Scan(LeafText(v) + rest, Between) == Prepend([LeafText(v)], Scan(rest, Between))
  {
    if v.Str? {
      assert LeafText(v) + rest == ['"'] + (v.s + "\"" + rest);
      ScanString(v.s, "\"", rest);
    } else {
      LeafIsWord(v);
      ScanWholeWord(LeafText(v), rest);
    }
  }

  lemma ScanWholeWord(w: string, rest: string)
    requires IsWord(w) && rest != "" && IsKeyword([rest[0]])
    ensures Scan(w + rest, Between) == Prepend([w], Scan(rest, Between))
  {
    WordTail(w, rest);
    hide IsWord;
    hide IsKeyword;
    ScanWord(w[1..], [w[0]], rest);
  }

  lemma WordTail(w: string, rest: string)
    requires IsWord(w)
    ensures (w[1..] == "" || IsWord(w[1..])) && (w + rest)[1..] == w[1..] + rest && [w[0]] + w[1..] == w
    ensures Scan(w + rest, Between) == Scan((w + rest)[1..], InWord([w[0]]))
  {
  }

  lemma ScanOne(c: char, rest: string)
    requires IsStructural(c)
    ensures Scan([c] + rest, Between) == Prepend([[c]], Scan(rest, Between))
  {
    assert ([c] + rest)[1..] == rest;
  }

  lemma PrependTwice(a: seq<string>, b: seq<string>, r: Scanned)
    ensures Prepend(a, Prepend(b, r)) == Prepend(a + b, r)
  {
    assert a + (b + r.tokens) == a + b + r.tokens;
  }

  /** The tokens of a printed value are those of the value. */
  lemma {:induction false} ScanRender(v: Value, rest: string)
    requires Leaves(v) && CleanKeys(v) && CleanStrings(v) && Stops(v, rest)
    ensures Scan(Render(v) + rest, Between) == Prepend(Tokens(v), Scan(rest, Between))
    decreases v, 0
  {
    match v
    case List(items) =>
      assert Render(v) == "[" + RenderItems(items, 0) + "]";
      assert Render(v) + rest == ['['] + (RenderItems(items, 0) + ("]" + rest));
      ScanOne('[', RenderItems(items, 0) + ("]" + rest));
      ScanItems(items, 0, "]" + rest);
      ScanOne(']', rest);
      PrependTwice(ItemTokens(items, 0), ["]"], Scan(rest, Between));
      PrependTwice(["["], ItemTokens(items, 0) + ["]"], Scan(rest, Between));
      assert ["["] + (ItemTokens(items, 0) + ["]"]) == Tokens(v);
    case Dict(entries) =>
      assert Render(v) == "{" + RenderMembers(entries, 0) + "}";
      assert Render(v) + rest == ['{'] + (RenderMembers(entries, 0) + ("}" + rest));
      ScanOne('{', RenderMembers(entries, 0) + ("}" + rest));
      ScanMembers(entries, 0, "}" + rest);
      ScanOne('}', rest);
      PrependTwice(MemberTokens(entries, 0), ["}"], Scan(rest, Between));
      PrependTwice(["{"], MemberTokens(entries, 0) + ["}"], Scan(rest, Between));
      assert ["{"] + (MemberTokens(entries, 0) + ["}"]) == Tokens(v);
    case _ =>
      ScanLeaf(v, rest);
  }

  lemma ScanComma(i: nat, rest: string)
    ensures Scan((if i > 0 then "," else "") + rest, Between) == Prepend(Comma(i), Scan(rest, Between))
  {
    if i > 0 {
      ScanOne(',', rest);
    } else {
      assert "" + rest == rest;
    }
  }

  lemma {:induction false} ScanItems(items: seq<Value>, i: nat, rest: string)
    requires i <= |items| && rest != "" && IsKeyword([rest[0]])
    requires forall j | 0 <= j < |items| :: Leaves(items[j]) && CleanKeys(items[j]) && CleanStrings(items[j])
    ensures Scan(RenderItems(items, i) + rest, Between) == Prepend(ItemTokens(items, i), Scan(rest, Between))
    decreases items, |items| - i
  {
    hide Scan, Render, Tokens, Prepend, LeafText, Clean, Leaves;
    if i == |items| {
      NoTokens(rest);
    } else {
      var comma, text, more := if i > 0 then "," else "", Render(items[i]), RenderItems(items, i + 1);
      Regroup(comma, text, more, rest);
      ScanComma(i, text + (more + rest));
      ScanRender(items[i], more + rest);
      ScanItems(items, i + 1, rest);
      PrependTwice(Tokens(items[i]), ItemTokens(items, i + 1), Scan(rest, Between));
      PrependTwice(Comma(i), Tokens(items[i]) + ItemTokens(items, i + 1), Scan(rest, Between));
      assert Comma(i) + (Tokens(items[i]) + ItemTokens(items, i + 1)) == ItemTokens(items, i);
    }
  }

  lemma ScanKey(key: string, rest: string)
    requires Clean(key)
    ensures Scan("\"" + key + "\":" + rest, Between) == Prepend(["\"" + key + "\"", ":"], Scan(rest, Between))
  {
    assert "\"" + key + "\":" + rest == LeafText(Str(key)) + (":" + rest);
    ScanLeaf(Str(key), ":" + rest);
    ScanOne(':', rest);
    PrependTwice(["\"" + key + "\""], [":"], Scan(rest, Between));
  }

  lemma NoTokens(rest: string)
    ensures "" + rest == rest && Prepend([], Scan(rest, Between)) == Scan(rest, Between)
  {
    assert [] + Scan(rest, Between).tokens == Scan(rest, Between).tokens;
  }

  lemma MembersTexts(entries: seq<Entry>, i: nat, rest: string)
    requires i <= |entries|
    ensures i == |entries| ==> RenderMembers(entries, i) == "" && MemberTokens(entries, i) == []
    ensures i < |entries| ==>
              && RenderMembers(entries, i) + rest ==
                 (if i > 0 then "," else "") + ("\"" + entries[i].key + "\":" +
                   (Render(entries[i].val) + (RenderMembers(entries, i + 1) + rest)))
              && MemberTokens(entries, i) ==
                 Comma(i) + (["\"" + entries[i].key + "\"", ":"] + (Tokens(entries[i].val) + MemberTokens(entries, i + 1)))
    ensures i < |entries| && rest != "" ==> RenderMembers(entries, i + 1) + rest != ""
    ensures i + 1 < |entries| ==> RenderMembers(entries, i + 1) != "" && RenderMembers(entries, i + 1)[0] == ','
    ensures i + 1 == |entries| ==> RenderMembers(entries, i + 1) == ""
  {
    hide Render, Tokens;
    if i < |entries| {
      var sep, key, text, more := if i > 0 then "," else "", entries[i].key, Render(entries[i].val), RenderMembers(entries, i + 1);
      RegroupFirst(sep, "\"", key, "\":");
      var k := "\"" + key + "\":";
      assert RenderMembers(entries, i) == sep + k + text + more;
      Regroup(sep + k, text, more, rest);
      assert sep + k + (text + (more + rest)) == sep + (k + (text + (more + rest)));
    }
  }

  lemma {:induction false} ScanMembers(entries: seq<Entry>, i: nat, rest: string)
    requires i <= |entries| && rest != "" && IsKeyword([rest[0]])
    requires forall j | 0 <= j < |entries| ::
               Clean(entries[j].key) && Leaves(entries[j].val) && CleanKeys(entries[j].val) && CleanStrings(entries[j].val)
    ensures Scan(RenderMembers(entries, i) + rest, Between) == Prepend(MemberTokens(entries, i), Scan(rest, Between))
    decreases entries, |entries| - i
  {
    hide Scan, Render, Tokens, Prepend, LeafText, Clean, Leaves, RenderMembers, MemberTokens, Comma;
    MembersTexts(entries, i, rest);
    if i == |entries| {
      NoTokens(rest);
    } else {
      var e, more := entries[i], RenderMembers(entries, i + 1);
      var comma, text := if i > 0 then "," else "", Render(e.val);
      var key := "\"" + e.key + "\":";
      ScanComma(i, key + (text + (more + rest)));
      ScanKey(e.key, text + (more + rest));
      ScanRender(e.val, more + rest);
      ScanMembers(entries, i + 1, rest);
      var named, toks, others := ["\"" + e.key + "\"", ":"], Tokens(e.val), MemberTokens(entries, i + 1);
      PrependTwice(toks, others, Scan(rest, Between));
      PrependTwice(named, toks + others, Scan(rest, Between));
      PrependTwice(Comma(i), named + (toks + others), Scan(rest, Between));
    }
  }

  // ---------------------------------------------------- tokens to value

  function Fresh(v: Value): Value
    requires IsContainer(v)
  {
    if v.List? then List([]) else Dict([])
  }

  /** No list or dictionary stands under a key that is there already. */
  ghost predicate Mergeable(v: Value) {
    match v
    case List(items) => forall i | 0 <= i < |items| :: Mergeable(items[i])
    case Dict(entries) =>
      && (forall i | 0 <= i < |entries| :: Mergeable(entries[i].val))
      && (forall j, i | 0 <= j < i < |entries| && IsContainer(entries[i].val) :: entries[j].key != entries[i].key)
    case _ => true
  }

  /** What a text says: dictionaries in key order, and of two values under one key the last. */
  function Normal(v: Value): (r: Value)
    ensures IsContainer(v) ==> r.List? == v.List? && r.Dict? == v.Dict?
    ensures !IsContainer(v) ==> r == v
    decreases v, 0
  {
    match v
    case List(items) => List(seq(|items|, i requires 0 <= i < |items| => Normal(items[i])))
    case Dict(entries) => Dict(Merged(entries, |entries|))
    case _ => v
  }

  function Merged(entries: seq<Entry>, k: nat): seq<Entry>
    requires k <= |entries|
    decreases entries, k
  {
    if k == 0 then [] else Assign(Merged(entries, k - 1), entries[k - 1].key, Normal(entries[k - 1].val))
  }

  /** The entries as they stand, each with its value in order. */
  function EachNormal(entries: seq<Entry>): (r: seq<Entry>)
    ensures |r| == |entries|
  {
    seq(|entries|, i requires 0 <= i < |entries| => Entry(entries[i].key, Normal(entries[i].val)))
  }

  /** That is the sorted dictionary that says what the entries say, one after the other. */
  lemma {:induction false} MergedMeans(entries: seq<Entry>, k: nat)
    requires k <= |entries|
    ensures Sorted(Merged(entries, k)) && AsMap(Merged(entries, k)) == AsMap(EachNormal(entries)[..k])
  {
    hide Normal, AsMap, Assign;
    if k == 0 {
      NoEntries();
    } else {
      MergedMeans(entries, k - 1);
      var e := EachNormal(entries)[k - 1];
      EmplaceKeepsOrder(Merged(entries, k - 1), e.key, e.val);
      SetsOneKey(Merged(entries, k - 1), e.key, e.val);
      AsMapMore(EachNormal(entries)[..k - 1], e);
      assert EachNormal(entries)[..k] == EachNormal(entries)[..k - 1] + [e];
    }
  }

  lemma {:induction false} KeyMerged(entries: seq<Entry>, k: nat, key: string)
    requires k <= |entries| && forall j | 0 <= j < k :: entries[j].key != key
    ensures !Has(Merged(entries, k), key)
  {
    hide Normal, Assign;
    MergedMeans(entries, k);
    SetsOneKey(Merged(entries, k), key, Null);
    NotAmong(EachNormal(entries)[..k], key);
  }

  lemma {:induction false} NormalIsPlain(v: Value)
    requires Leaves(v)
    ensures Plain(Normal(v))
    decreases v, 0
  {
    match v
    case List(items) =>
      forall i | 0 <= i < |items| ensures Plain(Normal(items[i])) { NormalIsPlain(items[i]); }
    case Dict(entries) =>
      MergedMeans(entries, |entries|);
      MergedPlain(entries, |entries|);
    case _ =>
  }

  lemma {:induction false} MergedPlain(entries: seq<Entry>, k: nat)
    requires k <= |entries| && forall j | 0 <= j < k :: Leaves(entries[j].val)
    ensures forall j | 0 <= j < |Merged(entries, k)| :: Plain(Merged(entries, k)[j].val)
    decreases entries, k
  {
    if k > 0 {
      MergedPlain(entries, k - 1);
      NormalIsPlain(entries[k - 1].val);
      AssignValues(Merged(entries, k - 1), entries[k - 1].key, Normal(entries[k - 1].val));
    }
  }

  lemma AssignValues(entries: seq<Entry>, key: string, val: Value)
    requires Plain(val) && forall j | 0 <= j < |entries| :: Plain(entries[j].val)
    ensures var r := Assign(entries, key, val); forall j | 0 <= j < |r| :: Plain(r[j].val)
  {
    hide Plain, Place;
  }

  /** A value in order says what it is. */
  lemma {:induction false} PlainIsNormal(v: Value)
    requires Plain(v)
    ensures Normal(v) == v && Mergeable(v)
    decreases v, 0
  {
    match v
    case List(items) =>
      forall i | 0 <= i < |items| ensures Normal(items[i]) == items[i] && Mergeable(items[i]) { PlainIsNormal(items[i]); }
    case Dict(entries) =>
      forall i | 0 <= i < |entries| ensures Normal(entries[i].val) == entries[i].val && Mergeable(entries[i].val) {
        PlainIsNormal(entries[i].val);
      }
      SortedMerged(entries, |entries|);
      forall j, i | 0 <= j < i < |entries| ensures entries[j].key != entries[i].key { NotLessItself(entries[i].key); }
    case _ =>
  }

  lemma {:induction false} SortedMerged(entries: seq<Entry>, k: nat)
    requires Sorted(entries) && k <= |entries| && forall j | 0 <= j < |entries| :: Normal(entries[j].val) == entries[j].val
    ensures Merged(entries, k) == entries[..k]
  {
    hide Normal;
    if k > 0 {
      SortedMerged(entries, k - 1);
      PlaceLast(entries[..k - 1], entries[k - 1].key);
    }
  }

  /** Parsing the tokens of a container fills an empty one up to what they say. */
  lemma {:induction false} FinishTokens(v: Value, rest: seq<string>)
    requires Leaves(v) && Mergeable(v) && IsContainer(v)
    ensures Finish(Fresh(v), Tokens(v)[1..] + rest) == Done(Normal(v), rest)
    decreases v, 0
  {
    if v.List? {
      assert Tokens(v)[1..] + rest == ItemTokens(v.items, 0) + (["]"] + rest);
      FinishItems(v.items, 0, ["]"] + rest);
      FinishList(Normal(v).items, ["]"] + rest);
    } else {
      assert Tokens(v)[1..] + rest == MemberTokens(v.entries, 0) + (["}"] + rest);
      FinishMembers(v.entries, 0, ["}"] + rest);
      FinishDict(Normal(v).entries, ["}"] + rest);
    }
  }

  lemma AfterCommaDrops(i: nat, token: string, more: seq<string>)
    requires token != ","
    ensures AfterComma(Comma(i) + ([token] + more)) == [token] + more
  {
    assert (Comma(i) + ([token] + more))[|Comma(i)|..] == [token] + more;
  }

  /** What the tokens of a value do as an item: they append it. */
  lemma TakeItem(before: seq<Value>, i: nat, v: Value, after: seq<string>)
    requires Leaves(v)
    requires IsContainer(v) ==> Finish(Fresh(v), Tokens(v)[1..] + after) == Done(Normal(v), after)
    ensures Finish(List(before), Comma(i) + (Tokens(v) + after)) == Finish(List(before + [Normal(v)]), after)
  {
    hide Finish, ParseBasic, LeafText, IsKeyword, Leaves, Tokens, Normal;
    TokensNonEmpty(v);
    var first, others := Tokens(v)[0], Tokens(v)[1..] + after;
    FirstToken(v);
    assert Tokens(v) + after == [first] + others;
    FinishList(before, Comma(i) + ([first] + others));
    AfterCommaDrops(i, first, others);
    assert ([first] + others)[1..] == others;
    if IsContainer(v) {
      assert WithChild(List(before + [Fresh(v)]), |before|, Normal(v)) == List(before + [Normal(v)]);
    } else {
      LeafTaken(v, after);
    }
  }

  lemma FirstToken(v: Value)
    requires Leaves(v)
    ensures var first := Tokens(v)[0];
            first != "," && first != "]" && first != "}" && (v.List? <==> first == "[") && (v.Dict? <==> first == "{")
  {
    if !IsContainer(v) { LeafRoundTrip(v); }
  }

  lemma NextItemTokens(items: seq<Value>, i: nat, more: seq<string>)
    requires i <= |items|
    ensures var normal := Normal(List(items)).items;
            && |normal| == |items|
            && (i == |items| ==> ItemTokens(items, i) + more == more && List(normal[..i]) == Normal(List(items)))
            && (i < |items| ==>
                  && ItemTokens(items, i) + more == Comma(i) + (Tokens(items[i]) + (ItemTokens(items, i + 1) + more))
                  && normal[..i] + [Normal(items[i])] == normal[..i + 1])
  {
    hide Tokens;
  }

  /** What the items of a list do, whatever comes behind them. */
  lemma {:induction false} FinishItems(items: seq<Value>, i: nat, after: seq<string>)
    requires i <= |items| && forall j | 0 <= j < |items| :: Leaves(items[j]) && Mergeable(items[j])
    ensures i <= |Normal(List(items)).items|
    ensures Finish(List(Normal(List(items)).items[..i]), ItemTokens(items, i) + after) == Finish(Normal(List(items)), after)
    decreases items, |items| - i
  {
    hide Finish, Tokens, Leaves, Mergeable, ItemTokens, Comma, Normal;
    NextItemTokens(items, i, after);
    var normal := Normal(List(items)).items;
    if i < |items| {
      var more := ItemTokens(items, i + 1) + after;
      if IsContainer(items[i]) { FinishTokens(items[i], more); }
      TakeItem(normal[..i], i, items[i], more);
      FinishItems(items, i + 1, after);
    }
  }

  /** What the tokens of a key and a value do as a member: they set an entry. */
  lemma TakeMember(before: seq<Entry>, i: nat, key: string, v: Value, after: seq<string>)
    requires Leaves(v) && (IsContainer(v) ==> !Has(before, key))
    requires IsContainer(v) ==> Finish(Fresh(v), Tokens(v)[1..] + after) == Done(Normal(v), after)
    ensures Finish(Dict(before), Comma(i) + (["\"" + key + "\"", ":"] + Tokens(v) + after)) ==
            Finish(Dict(Assign(before, key, Normal(v))), after)
  {
    hide Finish, ParseBasic, LeafText, IsKeyword, Place, Emplace, Assign, WithChild, Leaves, Unquote, Tokens, Normal, Has;
    MemberTaken(key, v, i, after);
    FirstToken(v);
    QuotedKey(key);
    FinishDict(before, Comma(i) + (["\"" + key + "\"", ":"] + Tokens(v) + after));
    if IsContainer(v) {
      MemberFilled(before, key, v);
    } else {
      LeafTaken(v, after);
    }
  }

  lemma QuotedKey(key: string)
    ensures Unquote("\"" + key + "\"") == Some(key)
  {
    var name := "\"" + key + "\"";
    assert name[1..|name| - 1] == key;
  }

  lemma LeafTaken(v: Value, after: seq<string>)
    requires Leaves(v) && !IsContainer(v)
    ensures Tokens(v)[1..] + after == after && !IsKeyword(Tokens(v)[0]) && ParseBasic(Tokens(v)[0]) == Some(Normal(v))
  {
    LeafRoundTrip(v);
  }

  lemma MemberTaken(key: string, v: Value, i: nat, after: seq<string>)
    ensures var tokens := Comma(i) + (["\"" + key + "\"", ":"] + Tokens(v) + after);
            var named := AfterComma(tokens);
            && tokens != [] && tokens[0] != "}"
            && |named| > 2 && named[0] == "\"" + key + "\"" && named[1] == ":" && named[2] == Tokens(v)[0]
            && named[3..] == Tokens(v)[1..] + after
  {
    hide Tokens;
    TokensNonEmpty(v);
    var name := "\"" + key + "\"";
    assert name[0] == '"';
    var others := [":"] + (Tokens(v) + after);
    assert [name, ":"] + Tokens(v) + after == [name] + others;
    AfterCommaDrops(i, name, others);
    assert ([name] + others)[3..] == Tokens(v)[1..] + after;
  }

  lemma TokensNonEmpty(v: Value)
    ensures Tokens(v) != []
  {
  }

  lemma NextMemberTokens(entries: seq<Entry>, i: nat, more: seq<string>)
    requires i <= |entries|
    ensures i == |entries| ==> MemberTokens(entries, i) + more == more && entries[..i] == entries
    ensures i < |entries| ==>
              MemberTokens(entries, i) + more ==
              Comma(i) + (["\"" + entries[i].key + "\"", ":"] + Tokens(entries[i].val) + (MemberTokens(entries, i + 1) + more))
  {
    hide Tokens;
  }

  lemma {:induction false} FinishMembers(entries: seq<Entry>, i: nat, after: seq<string>)
    requires i <= |entries| && Mergeable(Dict(entries)) && forall j | 0 <= j < |entries| :: Leaves(entries[j].val)
    ensures Finish(Dict(Merged(entries, i)), MemberTokens(entries, i) + after) == Finish(Normal(Dict(entries)), after)
    decreases entries, |entries| - i
  {
    hide Finish, Tokens, Place, Leaves, MemberTokens, Comma, Assign, Has;
    NextMemberTokens(entries, i, after);
    if i < |entries| {
      var e, more := entries[i], MemberTokens(entries, i + 1) + after;
      if IsContainer(e.val) {
        FinishTokens(e.val, more);
        KeyMerged(entries, i, e.key);
      }
      TakeMember(Merged(entries, i), i, e.key, e.val, more);
      FinishMembers(entries, i + 1, after);
    }
  }

  /** Where the closing bracket is missing at the end, a list is taken as it is and a
      dictionary refused. */
  lemma ClosedByTheEnd(v: Value)
    requires Leaves(v) && Mergeable(v) && IsContainer(v)
    ensures Finish(Fresh(v), Tokens(v)[1..|Tokens(v)| - 1]) == if v.List? then Done(Normal(v), []) else Bad
  {
    hide Finish;
    if v.List? {
      assert Tokens(v)[1..|Tokens(v)| - 1] == ItemTokens(v.items, 0) + [];
      FinishItems(v.items, 0, []);
      FinishList(Normal(v).items, []);
    } else {
      assert Tokens(v)[1..|Tokens(v)| - 1] == MemberTokens(v.entries, 0) + [];
      FinishMembers(v.entries, 0, []);
      FinishDict(Normal(v).entries, []);
    }
  }

  /** A comma makes no difference, wherever it stands, as long as a member or an item follows
      and not another comma; before a closing bracket it spoils the list. */
  lemma CommasAreOptional(entries: seq<Entry>, items: seq<Value>, tokens: seq<string>)
    requires tokens != [] && tokens[0] != ","
    ensures tokens[0] != "}" ==> Finish(Dict(entries), [","] + tokens) == Finish(Dict(entries), tokens)
    ensures tokens[0] != "]" ==> Finish(List(items), [","] + tokens) == Finish(List(items), tokens)
    ensures tokens[0] == "]" ==> Finish(List(items), [","] + tokens) == Bad
  {
    hide Finish;
    assert AfterComma([","] + tokens) == tokens == AfterComma(tokens);
    FinishDict(entries, tokens);
    FinishDict(entries, [","] + tokens);
    FinishList(items, tokens);
    FinishList(items, [","] + tokens);
  }

  lemma MemberFilled(before: seq<Entry>, key: string, v: Value)
    requires !Has(before, key) && IsContainer(v)
    ensures var grown, i := Dict(Emplace(before, key, Fresh(v))), Place(before, key);
            && IsChild(grown, i) && Child(grown, i) == Fresh(v)
            && WithChild(grown, i, Normal(v)) == Dict(Assign(before, key, Normal(v)))
  {
    hide Place, Normal;
  }

  /** A list or dictionary under the key of a leaf cannot be entered: the whole text is refused. */
  lemma LeafIsNotEntered(before: seq<Entry>, i: nat, key: string, v: Value, after: seq<string>)
    requires Leaves(v) && IsContainer(v) && Has(before, key) && !IsContainer(before[Place(before, key)].val)
    ensures Finish(Dict(before), Comma(i) + (["\"" + key + "\"", ":"] + Tokens(v) + after)) == Bad
  {
    hide LeafText, IsKeyword, Leaves, Unquote, Tokens;
    MemberTaken(key, v, i, after);
    FirstToken(v);
    QuotedKey(key);
    FinishDict(before, Comma(i) + (["\"" + key + "\"", ":"] + Tokens(v) + after));
  }

  /** Printing any list or dictionary and reading the text back gives what it says, as long as
      every key and string is clean: members may come in any order, and of two leaves under
      one key the last is kept. */
  lemma ReadsWhatIsSaid(v: Value)
    requires Leaves(v) && Mergeable(v) && IsContainer(v) && CleanKeys(v) && CleanStrings(v)
    ensures ParseText(Render(v)) == Returns(Normal(v)) && Plain(Normal(v))
    ensures v.Dict? ==> AsMap(Normal(v).entries) == AsMap(EachNormal(v.entries))
  {
    assert Render(v) + "" == Render(v);
    ScanRender(v, "");
    assert Tokens(v) + [] == Tokens(v);
    assert Scan(Render(v), Between) == Scanned(true, Tokens(v));
    FinishTokens(v, []);
    assert Tokens(v)[1..] + [] == Tokens(v)[1..];
    NormalIsPlain(v);
    if v.Dict? {
      MergedMeans(v.entries, |v.entries|);
      assert EachNormal(v.entries)[..|v.entries|] == EachNormal(v.entries);
    }
  }

  /** So one that is in order comes back as it was. */
  lemma RoundTrip(v: Value)
    requires Plain(v) && IsContainer(v) && CleanKeys(v) && CleanStrings(v)
    ensures Printable(v)
    ensures ParseText(Render(v)) == Returns(v)
  {
    PlainPrints(v);
    PlainLeaves(v);
    PlainIsNormal(v);
    ReadsWhatIsSaid(v);
  }

  // ------------------------------------------- exactly which values survive

  /** A string token the tokenizer yields has a clean text between its quotes. */
  ghost predicate CleanToken(token: string) {
    token != "" && (token[0] == '"' ==> |token| >= 2 && Clean(token[1..|token| - 1]))
  }

  ghost predicate CleanMode(mode: Mode) {
    match mode
    case Between => true
    case InString(text) => text != "" && text[0] == '"' && Clean(text[1..])
    case InWord(text) => text != "" && text[0] != '"'
  }

  lemma {:induction false} CleanConcat(a: string, b: string)
    requires Clean(a) && Clean(b)
    ensures Clean(a + b)
    decreases |a|
  {
    if a == "" {
      assert a + b == b;
    } else if a[0] == '\\' {
      CleanConcat(a[2..], b);
      assert (a + b)[2..] == a[2..] + b;
    } else {
      CleanConcat(a[1..], b);
      assert (a + b)[1..] == a[1..] + b;
    }
  }

  lemma CleanPieces(c: char)
    ensures Clean(['\\', c])
    ensures c != '"' && c != '\\' ==> Clean([c])
  {
    assert ['\\', c][2..] == "" && [c][1..] == "";
  }

  lemma {:induction false} ScannedTokensAreClean(input: string, mode: Mode)
    requires CleanMode(mode)
    ensures forall t | t in Scan(input, mode).tokens :: CleanToken(t)
    decreases |input|
  {
    if input != "" {
      var c, rest := input[0], input[1..];
      match mode
      case Between =>
        if IsStructural(c) { ScannedTokensAreClean(rest, Between); }
        else if c == '"' { ScannedTokensAreClean(rest, InString("\"")); }
        else if IsSpace(c) { ScannedTokensAreClean(rest, Between); }
        else { ScannedTokensAreClean(rest, InWord([c])); }
      case InString(text) =>
        if c == '\\' {
          if rest != "" {
            CleanPieces(rest[0]);
            CleanConcat(text[1..], ['\\', rest[0]]);
            assert (text + ['\\', rest[0]])[1..] == text[1..] + ['\\', rest[0]];
            ScannedTokensAreClean(rest[1..], InString(text + ['\\', rest[0]]));
          }
        } else if c == '"' {
          var token := text + "\"";
          assert token[1..|token| - 1] == text[1..];
          ScannedTokensAreClean(rest, Between);
        } else {
          CleanPieces(c);
          CleanConcat(text[1..], [c]);
          assert (text + [c])[1..] == text[1..] + [c];
          ScannedTokensAreClean(rest, InString(text + [c]));
        }
      case InWord(text) =>
        ScannedTokensAreClean(rest, Between);
        ScannedTokensAreClean(rest, InWord(text + [c]));
    }
  }

  lemma LeafIsClean(token: string)
    requires CleanToken(token) && ParseBasic(token).Some?
    ensures CleanStrings(ParseBasic(token).value)
  {
  }

  /** Every string in a value read from clean tokens is clean. */
  lemma {:induction false} FinishIsClean(v: Value, tokens: seq<string>)
    requires CleanStrings(v) && forall t | t in tokens :: CleanToken(t)
    ensures Finish(v, tokens).Done? ==> CleanStrings(Finish(v, tokens).value)
    ensures Finish(v, tokens).Done? ==> forall t | t in Finish(v, tokens).rest :: t in tokens
    decreases |tokens|, 0
  {
    hide Place, Emplace, Assign, ParseBasic, Unquote;
    match v
    case Dict(entries) =>
      FinishDict(entries, tokens);
      var named := AfterComma(tokens);
      if |named| > 2 && Unquote(named[0]).Some? {
        var key := Unquote(named[0]).value;
        if named[2] == "{" || named[2] == "[" {
          var fresh' := if named[2] == "{" then Dict([]) else List([]);
          EmplaceIsClean(entries, key, fresh');
          CloseIsClean(Dict(Emplace(entries, key, fresh')), Place(entries, key), named[3..]);
        } else if ParseBasic(named[2]).Some? {
          LeafIsClean(named[2]);
          EmplaceIsClean(entries, key, ParseBasic(named[2]).value);
          FinishIsClean(Dict(Assign(entries, key, ParseBasic(named[2]).value)), named[3..]);
        }
      }
    case List(items) =>
      FinishList(items, tokens);
      var valued := AfterComma(tokens);
      if valued != [] {
        if valued[0] == "{" || valued[0] == "[" {
          CloseIsClean(List(items + [if valued[0] == "{" then Dict([]) else List([])]), |items|, valued[1..]);
        } else if ParseBasic(valued[0]).Some? {
          LeafIsClean(valued[0]);
          FinishIsClean(List(items + [ParseBasic(valued[0]).value]), valued[1..]);
        }
      }
    case _ =>
  }

  lemma CloseIsClean(v: Value, i: nat, tokens: seq<string>)
    requires CleanStrings(v) && IsChild(v, i) && forall t | t in tokens :: CleanToken(t)
    ensures var r := Close(v, i, Finish(Child(v, i), tokens));
            r.Done? ==> CleanStrings(r.value) && forall t | t in r.rest :: t in tokens
    decreases |tokens|, 1
  {
    FinishIsClean(Child(v, i), tokens);
    var r := Finish(Child(v, i), tokens);
    if r.Done? {
      FinishIsClean(WithChild(v, i, r.value), r.rest);
    }
  }

  lemma EmplaceIsClean(entries: seq<Entry>, key: string, val: Value)
    requires CleanStrings(Dict(entries)) && CleanStrings(val)
    ensures CleanStrings(Dict(Emplace(entries, key, val))) && CleanStrings(Dict(Assign(entries, key, val)))
  {
  }

  lemma ReadStringsAreClean(input: string)
    requires ParseText(input).Returns?
    ensures CleanStrings(ParseText(input).value)
  {
    var scanned := Scan(input, Between);
    ScannedTokensAreClean(input, Between);
    if scanned.ok && scanned.tokens != [] {
      FinishIsClean(Dict([]), scanned.tokens[1..]);
      FinishIsClean(List([]), scanned.tokens[1..]);
    }
  }

  /** A dictionary whose one key is a quote: its text does not even parse. */
  lemma QuotedKeyIsLost()
    ensures var v := Dict([Entry("\"", Null)]);
            Plain(v) && CleanStrings(v) && ParseText(Render(v)) == Returns(Null)
  {
    var v := Dict([Entry("\"", Null)]);
    RenderedQuotedKey();
    ScannedQuotedKey();
    FinishDict([], [LeafText(Str(""))]);
    assert LeafText(Str("")) == "\"\"";
  }

  lemma ScannedQuotedKey()
    ensures Scan(['{'] + (LeafText(Str("")) + "\":null}"), Between) == Scanned(true, ["{", LeafText(Str(""))])
  {
    hide Scan, LeafText;
    var unclosed := "\":null}";
    ScanOne('{', LeafText(Str("")) + unclosed);
    ScanLeaf(Str(""), unclosed);
    UnclosedTail();
    assert ["{"] + ([LeafText(Str(""))] + []) == ["{", LeafText(Str(""))];
  }

  lemma UnclosedTail()
    ensures Scan("\":null}", Between) == Scanned(true, [])
  {
    assert "\":null}"[1..] == ":null}";
    UnfinishedString(":null}", "\"");
  }

  lemma RenderedQuotedKey()
    ensures Render(Dict([Entry("\"", Null)])) == ['{'] + (LeafText(Str("")) + "\":null}")
  {
    var entries := [Entry("\"", Null)];
    assert RenderMembers(entries, 1) == "";
    assert RenderMembers(entries, 0) == "" + "\"" + "\"" + "\":" + "null" + "";
  }

  /** A string that is never closed yields no token and no error. */
  lemma {:induction false} UnfinishedString(input: string, text: string)
    requires '"' !in input && '\\' !in input
    ensures Scan(input, InString(text)) == Scanned(true, [])
  {
    if input != "" { UnfinishedString(input[1..], text + [input[0]]); }
  }
}
