/** Texts as people write them: what the tokenizer makes of tokens with white space around
    them, and of an end that is missing. */
module JsonText {
  import opened Common
  import opened JsonValue
  import opened JsonParser
  import opened JsonPrinter
  import opened JsonRoundTrip

  predicate White(c: char) { c == ' ' || c == '\n' || c == '\r' || c == '\t' || c == '\U{0B}' || c == '\U{08}' }

  predicate Blank(s: string) { forall i | 0 <= i < |s| :: White(s[i]) }

  predicate EndsWord(c: char) { c == '}' || c == ']' || c == ':' || c == ',' }

  predicate IsEnd(t: string) { |t| == 1 && EndsWord(t[0]) }

  predicate IsMark(t: string) { |t| == 1 && (EndsWord(t[0]) || t[0] == '{' || t[0] == '[') }

  /** What is neither a mark nor quoted; brackets and quotes may stand in it, but not first. */
  predicate Bare(w: string) {
    && w != "" && w[0] != '{' && w[0] != '[' && w[0] != '"'
    && forall i | 0 <= i < |w| :: !White(w[i]) && !EndsWord(w[i])
  }

  predicate IsQuoted(t: string) { |t| >= 2 && t[0] == '"' && t[|t| - 1] == '"' && Clean(t[1..|t| - 1]) }

  predicate Lexemes(tokens: seq<string>) {
    forall i | 0 <= i < |tokens| :: IsMark(tokens[i]) || IsQuoted(tokens[i]) || Bare(tokens[i])
  }

  /** Behind a bare word comes white space or a mark that ends it. */
  predicate Parted(tokens: seq<string>, gaps: seq<string>) {
    && |gaps| == |tokens| + 1 && (forall i | 0 <= i < |gaps| :: Blank(gaps[i]))
    && forall i | 0 <= i < |tokens| && Bare(tokens[i]) ::
         gaps[i + 1] != "" || (i + 1 < |tokens| && IsEnd(tokens[i + 1]))
  }

  /** The tokens with the gaps before, between and behind them. */
  function Join(tokens: seq<string>, gaps: seq<string>): string
    requires |gaps| == |tokens| + 1
  {
    if tokens == [] then gaps[0] else gaps[0] + tokens[0] + Join(tokens[1..], gaps[1..])
  }

  /** An end at which nothing more is found: a word or a string that does not end. */
  predicate Unfinished(tail: string) {
    tail == "" || Bare(tail) || (tail[0] == '"' && Clean(tail[1..]))
  }

  /** A string that ends in the middle of an escape. */
  predicate CutOff(tail: string) {
    |tail| >= 2 && tail[0] == '"' && tail[|tail| - 1] == '\\' && Clean(tail[1..|tail| - 1])
  }

  lemma Classes(c: char)
    ensures IsSpace(c) <==> White(c)
    ensures IsKeyword([c]) <==> EndsWord(c)
    ensures IsStructural(c) <==> EndsWord(c) || c == '{' || c == '['
  {
  }

  lemma {:induction false} ScanGap(gap: string, rest: string)
    requires Blank(gap)
    ensures Scan(gap + rest, Between) == Scan(rest, Between)
  {
    if gap == "" {
      assert gap + rest == rest;
    } else {
      Classes(gap[0]);
      assert (gap + rest)[1..] == gap[1..] + rest;
      ScanGap(gap[1..], rest);
    }
  }

  lemma {:induction false} ScanInWord(w: string, text: string, rest: string)
    requires forall i | 0 <= i < |w| :: !White(w[i]) && !EndsWord(w[i])
    requires rest != "" && (White(rest[0]) || EndsWord(rest[0]))
    ensures Scan(w + rest, InWord(text)) == Cons(text + w, Scan(rest, Between))
    decreases |w|
  {
    if w == "" {
      assert w + rest == rest && text + w == text;
      Classes(rest[0]);
    } else {
      Classes(w[0]);
      assert (w + rest)[1..] == w[1..] + rest;
      ScanInWord(w[1..], text + [w[0]], rest);
      assert text + [w[0]] + w[1..] == text + w;
    }
  }

  lemma ScanBare(t: string, rest: string)
    requires Bare(t) && rest != "" && (White(rest[0]) || EndsWord(rest[0]))
    ensures Scan(t + rest, Between) == Cons(t, Scan(rest, Between))
  {
    hide White, EndsWord, IsStructural, IsSpace, IsKeyword;
    BareFirst(t);
    assert (t + rest)[1..] == t[1..] + rest;
    ScanInWord(t[1..], [t[0]], rest);
    assert [t[0]] + t[1..] == t;
  }

  lemma ScanQuoted(t: string, rest: string)
    requires IsQuoted(t)
    ensures Scan(t + rest, Between) == Cons(t, Scan(rest, Between))
  {
    hide Clean, IsKeyword;
    var s := t[1..|t| - 1];
    Classes(t[0]);
    assert t + rest == ['"'] + (s + "\"" + rest);
    ScanString(s, "\"", rest);
    Requoted(t);
  }

  lemma Requoted(t: string)
    requires |t| >= 2 && t[0] == '"' && t[|t| - 1] == '"'
    ensures "\"" + t[1..|t| - 1] + "\"" == t
  {
    assert t == [t[0]] + t[1..|t| - 1] + [t[|t| - 1]];
  }

  lemma ScanToken(t: string, rest: string)
    requires IsMark(t) || IsQuoted(t) || Bare(t)
    requires Bare(t) ==> rest != "" && (White(rest[0]) || EndsWord(rest[0]))
    ensures Scan(t + rest, Between) == Cons(t, Scan(rest, Between))
  {
    hide Scan, Clean, IsSpace, IsKeyword;
    if Bare(t) {
      ScanBare(t, rest);
    } else if IsQuoted(t) {
      ScanQuoted(t, rest);
    } else {
      Classes(t[0]);
      ScanOne(t[0], rest);
      assert [t[0]] == t;
    }
  }

  lemma BareFirst(t: string)
    requires Bare(t)
    ensures !IsStructural(t[0]) && t[0] != '"' && !IsSpace(t[0])
  {
    Classes(t[0]);
  }

  /** The tokenizer finds exactly the tokens, whatever the gaps, and nothing in an end that is
      missing; it fails only at an escape that is cut off. */
  lemma {:induction false} ScanJoin(tokens: seq<string>, gaps: seq<string>, tail: string)
    requires Lexemes(tokens) && Parted(tokens, gaps)
    requires tokens != [] && Bare(tokens[|tokens| - 1]) ==> gaps[|tokens|] != ""
    ensures Unfinished(tail) ==> Scan(Join(tokens, gaps) + tail, Between) == Scanned(true, tokens)
    ensures CutOff(tail) ==> !Scan(Join(tokens, gaps) + tail, Between).ok
    decreases |tokens|
  {
    hide Scan, Bare, IsQuoted, IsMark, IsEnd, Unfinished, CutOff, Blank;
    if tokens == [] {
      ScanGap(gaps[0], tail);
      if Unfinished(tail) { ScanUnfinished(tail); }
      if CutOff(tail) { ScanCutOff(tail); }
    } else {
      var more := Join(tokens[1..], gaps[1..]) + tail;
      assert Join(tokens, gaps) + tail == gaps[0] + (tokens[0] + more);
      ScanGap(gaps[0], tokens[0] + more);
      if Bare(tokens[0]) { AfterWord(tokens, gaps, tail); }
      ScanToken(tokens[0], more);
      forall i | 0 <= i < |tokens[1..]| && Bare(tokens[1..][i])
        ensures gaps[1..][i + 1] != "" ||
                (i + 1 < |tokens[1..]| && IsEnd(tokens[1..][i + 1]))
      {
        assert Bare(tokens[i + 1]);
      }
      ScanJoin(tokens[1..], gaps[1..], tail);
    }
  }

  lemma AfterWord(tokens: seq<string>, gaps: seq<string>, tail: string)
    requires Parted(tokens, gaps) && tokens != [] && Bare(tokens[0])
    requires Bare(tokens[|tokens| - 1]) ==> gaps[|tokens|] != ""
    ensures var more := Join(tokens[1..], gaps[1..]) + tail; more != "" && (White(more[0]) || EndsWord(more[0]))
  {
    if gaps[1] != "" {
      assert White(gaps[1][0]);
    } else {
      assert |tokens| > 1 && tokens[1..][0] == tokens[1] && gaps[1..][0] == gaps[1];
    }
  }

  lemma {:induction false} ScanToEnd(w: string, text: string)
    requires forall i | 0 <= i < |w| :: !White(w[i]) && !EndsWord(w[i])
    ensures Scan(w, InWord(text)) == Scanned(true, [])
    decreases |w|
  {
    if w != "" {
      Classes(w[0]);
      ScanToEnd(w[1..], text + [w[0]]);
    }
  }

  lemma {:induction false} ScanOpenString(s: string, text: string)
    requires Clean(s)
    ensures Scan(s, InString(text)) == Scanned(true, [])
    ensures Scan(s + "\\", InString(text)) == Scanned(false, [])
    decreases |s|
  {
    var cut := s + "\\";
    if s == "" {
      assert cut == "\\" && cut[1..] == "";
    } else if s[0] == '\\' {
      assert s[1..][1..] == s[2..] && cut[1..][1..] == s[2..] + "\\";
      ScanOpenString(s[2..], text + ['\\', s[1]]);
    } else {
      assert cut[1..] == s[1..] + "\\";
      ScanOpenString(s[1..], text + [s[0]]);
    }
  }

  lemma ScanUnfinished(tail: string)
    requires Unfinished(tail)
    ensures Scan(tail, Between) == Scanned(true, [])
  {
    hide Clean;
    if tail != "" {
      if Bare(tail) {
        BareFirst(tail);
        ScanToEnd(tail[1..], [tail[0]]);
      } else {
        Classes(tail[0]);
        ScanOpenString(tail[1..], "\"");
      }
    }
  }

  lemma ScanCutOff(tail: string)
    requires CutOff(tail)
    ensures !Scan(tail, Between).ok
  {
    hide Clean;
    Classes(tail[0]);
    ScanOpenString(tail[1..|tail| - 1], "\"");
    assert tail[1..] == tail[1..|tail| - 1] + "\\";
  }

  // ------------------------------------------------- white space in the text of a tree

  function After(tokens: seq<string>, i: nat, next: string): string {
    if i + 1 < |tokens| then tokens[i + 1] else next
  }

  /** Every bare word is followed by a mark that ends it, the last one by `next`. */
  ghost predicate Closed(tokens: seq<string>, next: string) {
    && Lexemes(tokens)
    && forall i | 0 <= i < |tokens| && Bare(tokens[i]) :: IsEnd(After(tokens, i, next))
  }

  lemma ClosedConcat(a: seq<string>, b: seq<string>, next: string)
    requires Closed(a, if b == [] then next else b[0]) && Closed(b, next)
    ensures Closed(a + b, next)
  {
    hide Bare, IsMark, IsQuoted, IsEnd;
    var c := a + b;
    forall i | 0 <= i < |c| && Bare(c[i])
      ensures IsEnd(After(c, i, next))
    {
      if i >= |a| {
        assert Bare(b[i - |a|]);
        assert After(c, i, next) == After(b, i - |a|, next);
      } else {
        assert Bare(a[i]);
        assert After(c, i, next) == After(a, i, if b == [] then next else b[0]);
      }
    }
    forall i | 0 <= i < |c|
      ensures IsMark(c[i]) || IsQuoted(c[i]) || Bare(c[i])
    {
      if i >= |a| { assert c[i] == b[i - |a|]; } else { assert c[i] == a[i]; }
    }
  }

  lemma ClosedMark(t: string, next: string)
    requires IsMark(t) || IsQuoted(t)
    ensures Closed([t], next)
  {
    assert !Bare(t);
  }

  lemma QuotedIsLexeme(s: string)
    requires Clean(s)
    ensures IsQuoted("\"" + s + "\"")
  {
    var t := "\"" + s + "\"";
    assert t[1..|t| - 1] == s;
  }

  lemma LeafIsLexeme(v: Value, next: string)
    requires LeafInRange(v) && CleanStrings(v) && IsEnd(next)
    ensures Closed([LeafText(v)], next)
  {
    if v.Str? {
      QuotedIsLexeme(v.s);
    } else {
      LeafIsWord(v);
      forall c: char ensures !IsStructural(c) && !IsSpace(c) ==> !White(c) && !EndsWord(c) && c != '{' && c != '[' {
        Classes(c);
      }
      assert Bare(LeafText(v));
    }
  }

  lemma {:induction false} ClosedTokens(v: Value, next: string)
    requires Leaves(v) && CleanKeys(v) && CleanStrings(v) && IsEnd(next)
    ensures Closed(Tokens(v), next)
    decreases v, 0
  {
    hide Closed, Clean;
    match v
    case List(items) =>
      ClosedItems(items, 0, "]");
      ClosedMark("[", (ItemTokens(items, 0) + ["]"])[0]);
      ClosedMark("]", next);
      ClosedConcat(ItemTokens(items, 0), ["]"], next);
      ClosedConcat(["["], ItemTokens(items, 0) + ["]"], next);
      assert ["["] + (ItemTokens(items, 0) + ["]"]) == Tokens(v);
    case Dict(entries) =>
      ClosedMembers(entries, 0, "}");
      ClosedMark("{", (MemberTokens(entries, 0) + ["}"])[0]);
      ClosedMark("}", next);
      ClosedConcat(MemberTokens(entries, 0), ["}"], next);
      ClosedConcat(["{"], MemberTokens(entries, 0) + ["}"], next);
      assert ["{"] + (MemberTokens(entries, 0) + ["}"]) == Tokens(v);
    case _ =>
      LeafIsLexeme(v, next);
  }

  lemma ClosedComma(i: nat, next: string)
    ensures Closed(Comma(i), next)
  {
    assert IsMark(",") && !Bare(",");
  }

  lemma ItemsFirst(items: seq<Value>, i: nat, next: string)
    requires 0 < i <= |items| && IsEnd(next)
    ensures IsEnd(if ItemTokens(items, i) == [] then next else ItemTokens(items, i)[0])
  {
  }

  lemma {:induction false} ClosedItems(items: seq<Value>, i: nat, next: string)
    requires i <= |items| && IsEnd(next)
    requires forall j | 0 <= j < |items| :: Leaves(items[j]) && CleanKeys(items[j]) && CleanStrings(items[j])
    ensures Closed(ItemTokens(items, i), next)
    decreases items, |items| - i
  {
    hide Tokens, Comma, IsEnd, Leaves, CleanKeys, CleanStrings, Bare, IsMark, IsQuoted;
    if i < |items| {
      var first, more := Tokens(items[i]), ItemTokens(items, i + 1);
      ItemsFirst(items, i + 1, next);
      ClosedItems(items, i + 1, next);
      ClosedTokens(items[i], if more == [] then next else more[0]);
      ClosedConcat(first, more, next);
      ClosedComma(i, (first + more + [next])[0]);
      TokensNonEmpty(items[i]);
      ClosedConcat(Comma(i), first + more, next);
      assert Comma(i) + (first + more) == ItemTokens(items, i);
    }
  }

  lemma MembersFirst(entries: seq<Entry>, i: nat, next: string)
    requires 0 < i <= |entries| && IsEnd(next)
    ensures IsEnd(if MemberTokens(entries, i) == [] then next else MemberTokens(entries, i)[0])
  {
  }

  lemma ClosedKey(key: string, next: string)
    requires Clean(key)
    ensures Closed(["\"" + key + "\"", ":"], next)
  {
    QuotedIsLexeme(key);
  }

  lemma {:induction false} ClosedMembers(entries: seq<Entry>, i: nat, next: string)
    requires i <= |entries| && IsEnd(next)
    requires forall j | 0 <= j < |entries| ::
               Clean(entries[j].key) && Leaves(entries[j].val) && CleanKeys(entries[j].val) && CleanStrings(entries[j].val)
    ensures Closed(MemberTokens(entries, i), next)
    decreases entries, |entries| - i
  {
    hide Tokens, Comma, IsEnd, Clean, Leaves, CleanKeys, CleanStrings, Bare, IsMark, IsQuoted;
    if i < |entries| {
      var key, first, more := ["\"" + entries[i].key + "\"", ":"], Tokens(entries[i].val), MemberTokens(entries, i + 1);
      MembersFirst(entries, i + 1, next);
      ClosedMembers(entries, i + 1, next);
      ClosedTokens(entries[i].val, if more == [] then next else more[0]);
      ClosedConcat(first, more, next);
      TokensNonEmpty(entries[i].val);
      ClosedKey(entries[i].key, (first + more)[0]);
      ClosedConcat(key, first + more, next);
      ClosedComma(i, key[0]);
      ClosedConcat(Comma(i), key + (first + more), next);
      assert Comma(i) + (key + (first + more)) == MemberTokens(entries, i);
    }
  }

  /** White space anywhere between the tokens of a tree, before or behind it makes no difference. */
  lemma WhiteSpaceIsFree(v: Value, gaps: seq<string>)
    requires Leaves(v) && Mergeable(v) && IsContainer(v) && CleanKeys(v) && CleanStrings(v)
    requires |gaps| == |Tokens(v)| + 1 && forall i | 0 <= i < |gaps| :: Blank(gaps[i])
    ensures ParseText(Join(Tokens(v), gaps)) == ParseText(Render(v)) == Returns(Normal(v))
  {
    hide Scan, Tokens, Render, Join, Bare, Leaves, Mergeable, CleanKeys, CleanStrings, Normal;
    var tokens := Tokens(v);
    ClosedTokens(v, ":");
    TokensEnd(v);
    assert Parted(tokens, gaps);
    ScanJoin(tokens, gaps, "");
    assert Join(tokens, gaps) + "" == Join(tokens, gaps);
    ReadsWhatIsSaid(v);
    SameTokens(v);
  }

  lemma TokensEnd(v: Value)
    requires IsContainer(v)
    ensures Tokens(v) != [] && !Bare(Tokens(v)[|Tokens(v)| - 1])
  {
  }

  lemma SameTokens(v: Value)
    requires Leaves(v) && IsContainer(v) && CleanKeys(v) && CleanStrings(v)
    ensures Scan(Render(v), Between) == Scanned(true, Tokens(v))
  {
    ScanRender(v, "");
    assert Render(v) + "" == Render(v);
    assert Tokens(v) + [] == Tokens(v);
  }

  // ------------------------------------------------- the text itself

  lemma {:induction false} RenderedItems(items: seq<Value>, i: nat)
    requires i <= |items|
    ensures RenderItems(items, i) == Flatten(ItemTokens(items, i))
    decreases items, |items| - i
  {
    hide Render, Tokens, Flatten;
    FlattenNone();
    if i < |items| {
      TextIsItsTokens(items[i]);
      RenderedItems(items, i + 1);
      FlattenConcat(Comma(i) + Tokens(items[i]), ItemTokens(items, i + 1));
      FlattenConcat(Comma(i), Tokens(items[i]));
      FlattenOne(",");
    }
  }

  lemma FlattenNone()
    ensures Flatten<char>([]) == ""
  {
  }

  lemma {:induction false} RenderedMembers(entries: seq<Entry>, i: nat)
    requires i <= |entries|
    ensures RenderMembers(entries, i) == Flatten(MemberTokens(entries, i))
    decreases entries, |entries| - i
  {
    hide Render, Tokens, Flatten;
    FlattenNone();
    if i < |entries| {
      var key := "\"" + entries[i].key + "\"";
      TextIsItsTokens(entries[i].val);
      RenderedMembers(entries, i + 1);
      FlattenConcat(Comma(i) + [key, ":"] + Tokens(entries[i].val), MemberTokens(entries, i + 1));
      FlattenConcat(Comma(i) + [key, ":"], Tokens(entries[i].val));
      FlattenConcat(Comma(i), [key, ":"]);
      assert [key, ":"] == [key] + [":"];
      FlattenConcat([key], [":"]);
      FlattenOne(key);
      FlattenOne(":");
      FlattenOne(",");
      assert "\"" + entries[i].key + "\":" == key + ":";
      RegroupFirst(if i > 0 then "," else "", "\"", entries[i].key, "\":");
    }
  }

  /** What is printed is the tokens and nothing else. */
  lemma {:induction false} TextIsItsTokens(v: Value)
    ensures Render(v) == Flatten(Tokens(v))
    decreases v, 0
  {
    hide Flatten, LeafText;
    match v
    case List(items) =>
      RenderedItems(items, 0);
      FlattenConcat(["["] + ItemTokens(items, 0), ["]"]);
      FlattenConcat(["["], ItemTokens(items, 0));
      FlattenOne("[");
      FlattenOne("]");
      assert items == [] ==> "[" + RenderItems(items, 0) + "]" == "[]";
    case Dict(entries) =>
      RenderedMembers(entries, 0);
      FlattenConcat(["{"] + MemberTokens(entries, 0), ["}"]);
      FlattenConcat(["{"], MemberTokens(entries, 0));
      FlattenOne("{");
      FlattenOne("}");
      assert entries == [] ==> "{" + RenderMembers(entries, 0) + "}" == "{}";
    case _ =>
      FlattenOne(LeafText(v));
  }

  // ------------------------------------------------- words that are no JSON

  /** A key without its quotes loses its first and its last character. */
  lemma BareKeyIsClipped(w: string)
    requires Bare(w)
    ensures ParseText("{" + w + ":null}") == Returns(Dict([Entry(if |w| == 1 then "" else w[1..|w| - 1], Null)]))
  {
    hide Scan, Clean, Finish;
    var tokens, gaps := ["{", w, ":", "null", "}"], ["", "", "", "", "", ""];
    assert Bare("null");
    assert Lexemes(tokens);
    assert Parted(tokens, gaps) by {
      assert IsEnd(":") && IsEnd("}") && !Bare("{") && !Bare(":") && !Bare("}");
    }
    ScanJoin(tokens, gaps, "");
    JoinFive(tokens, gaps);
    assert "{" + w + ":" + "null" + "}" == "{" + w + ":null}";
    assert Join(tokens, gaps) + "" == Join(tokens, gaps);
    ClippedKey(w);
  }

  lemma ClippedKey(w: string)
    requires w != "" && w != "}" && w != ","
    ensures ParseTokens(["{", w, ":", "null", "}"]) ==
            Done(Dict([Entry(if |w| == 1 then "" else w[1..|w| - 1], Null)]), [])
  {
    hide Finish;
    var tokens := ["{", w, ":", "null", "}"];
    FinishDict([], tokens[1..]);
    assert tokens[1..][3..] == ["}"];
    var key := if |w| == 1 then "" else w[1..|w| - 1];
    assert Assign([], key, Null) == [Entry(key, Null)];
    FinishDict([Entry(key, Null)], ["}"]);
  }

  /** A bare item is a literal, a double if a point stands behind its first character, and
      otherwise an integer or an exception. */
  lemma BareItem(w: string)
    requires Bare(w)
    ensures ParseText("[" + w + "]") ==
            if w == "null" then Returns(List([Null]))
            else if w == "true" then Returns(List([Bool(true)]))
            else if w == "false" then Returns(List([Bool(false)]))
            else if '.' in w[1..] then Returns(List([Double(w)]))
            else if ParseInt(w).None? then Throws
            else Returns(List([Int(ParseInt(w).value)]))
  {
    hide Scan, Clean, Finish, ParseInt;
    var tokens, gaps := ["[", w, "]"], ["", "", "", ""];
    assert Lexemes(tokens);
    assert Parted(tokens, gaps) by {
      assert IsEnd("]") && !Bare("[") && !Bare("]");
    }
    ScanJoin(tokens, gaps, "");
    JoinThree(tokens, gaps);
    assert Join(tokens, gaps) + "" == Join(tokens, gaps);
    FinishList([], tokens[1..]);
    assert tokens[1..][1..] == ["]"] && w != "]" && w != "," && !IsKeyword(w);
    if i: nat :| 1 <= i < |w| && w[i] == '.' { assert w[1..][i - 1] == '.'; }
    if ParseBasic(w).Some? {
      assert [] + [ParseBasic(w).value] == [ParseBasic(w).value];
      FinishList([ParseBasic(w).value], ["]"]);
    }
  }

  lemma JoinThree(tokens: seq<string>, gaps: seq<string>)
    requires |tokens| == 3 && |gaps| == 4 && forall i | 0 <= i < 4 :: gaps[i] == ""
    ensures Join(tokens, gaps) == tokens[0] + tokens[1] + tokens[2]
  {
    assert Join(tokens[3..], gaps[3..]) == "";
    assert Join(tokens[2..], gaps[2..]) == tokens[2];
    assert Join(tokens[1..], gaps[1..]) == tokens[1] + tokens[2];
  }

  lemma JoinFive(tokens: seq<string>, gaps: seq<string>)
    requires |tokens| == 5 && |gaps| == 6 && forall i | 0 <= i < 6 :: gaps[i] == ""
    ensures Join(tokens, gaps) == tokens[0] + tokens[1] + tokens[2] + tokens[3] + tokens[4]
  {
    assert Join(tokens[5..], gaps[5..]) == "";
    assert Join(tokens[4..], gaps[4..]) == tokens[4];
    assert Join(tokens[3..], gaps[3..]) == tokens[3] + tokens[4];
    assert Join(tokens[2..], gaps[2..]) == tokens[2] + tokens[3] + tokens[4];
    assert Join(tokens[1..], gaps[1..]) == tokens[1] + tokens[2] + tokens[3] + tokens[4];
  }
}
