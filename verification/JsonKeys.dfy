/** Why no value with an unclean key comes back from its own text.

    The tokenizer is followed character by character over the printed text.  From the first
    unclean key on it may read strings as if they were the text between strings and the other
    way round, but every string it misreads is one token short, and a string longer than all
    unclean keys can only come back as another key cut out of a yet longer misread string. */
module JsonKeys {
  import opened Common
  import opened JsonValue
  import opened JsonParser
  import opened JsonPrinter
  import opened JsonRoundTrip

  // ------------------------------------------- the tokenizer, by characters

  /** Where the tokenizer stands, whether the next character is escaped, and its tokens. */
  datatype Lexer = Lexer(mode: Mode, escaped: bool, out: seq<string>)

  function Feed(l: Lexer, c: char): Lexer {
    match l.mode
    case Between =>
      if IsStructural(c) then l.(out := l.out + [[c]])
      else if c == '"' then l.(mode := InString("\""))
      else if IsSpace(c) then l
      else l.(mode := InWord([c]))
    case InString(text) =>
      if l.escaped then Lexer(InString(text + ['\\', c]), false, l.out)
      else if c == '\\' then l.(escaped := true)
      else if c == '"' then Lexer(Between, false, l.out + [text + "\""])
      else l.(mode := InString(text + [c]))
    case InWord(text) =>
      if IsKeyword([c]) then Lexer(Between, l.escaped, l.out + [text] + [[c]])
      else if IsSpace(c) then Lexer(Between, l.escaped, l.out + [text])
      else l.(mode := InWord(text + [c]))
  }

  function FeedAll(l: Lexer, text: string): Lexer {
    if text == "" then l else Feed(FeedAll(l, text[..|text| - 1]), text[|text| - 1])
  }

  lemma {:induction false} FeedConcat(l: Lexer, a: string, b: string)
    ensures FeedAll(l, a + b) == FeedAll(FeedAll(l, a), b)
  {
    hide Feed;
    if b == "" {
      assert a + b == a;
    } else {
      assert (a + b)[..|a + b| - 1] == a + b[..|b| - 1];
      FeedConcat(l, a, b[..|b| - 1]);
    }
  }

  lemma FeedOne(l: Lexer, c: char)
    ensures FeedAll(l, [c]) == Feed(l, c)
  {
    hide Feed;
    assert [c][..0] == "";
  }

  lemma FeedFirst(l: Lexer, input: string)
    requires input != ""
    ensures FeedAll(l, input) == FeedAll(Feed(l, input[0]), input[1..])
  {
    hide Feed;
    assert input == [input[0]] + input[1..];
    FeedConcat(l, [input[0]], input[1..]);
    FeedOne(l, input[0]);
  }

  /** It finds the tokens of the tokenizer. */
  lemma {:induction false} FeedIsScan(l: Lexer, input: string)
    requires !l.escaped
    ensures FeedAll(l, input).out == l.out + Scan(input, l.mode).tokens
    decreases |input|
  {
    if input != "" {
      var c, rest := input[0], input[1..];
      FeedFirst(l, input);
      if l.mode.InString? && c == '\\' {
        if rest != "" {
          FeedFirst(Feed(l, c), rest);
          FeedIsScan(Feed(Feed(l, c), rest[0]), rest[1..]);
        }
      } else {
        FeedIsScan(Feed(l, c), rest);
      }
    }
  }

  // -------------------------------------------------- which tokens matter

  predicate Special(c: char) { c == '"' || c == '\\' }

  ghost predicate NoSpecial(s: string) { forall i | 0 <= i < |s| :: !Special(s[i]) }

  ghost predicate NoEnd(s: string) { forall i | 0 <= i < |s| :: !IsKeyword([s[i]]) }

  function Quoted(s: string): string { "\"" + s + "\"" }

  lemma QuotedOnce(s: string, t: string)
    ensures Quoted(s) == Quoted(t) <==> s == t
    ensures Unquote(Quoted(s)) == Some(s) && Quoted(s)[0] == '"'
  {
    assert Quoted(s)[1..|Quoted(s)| - 1] == s;
    assert Quoted(t)[1..|Quoted(t)| - 1] == t;
  }

  /** A word from which a key of more than `n` characters, one of them special, would be cut
      by taking off its first and last. */
  ghost predicate Long(w: string, n: nat) {
    |w| >= n + 2 && w[0] != '"' && NoEnd(w) && !NoSpecial(w[1..|w| - 1])
  }

  /** It is part of the string, perhaps with the quote behind it. */
  ghost predicate From(w: string, s: string) { exists a: nat :: StandsAt(w, s, a) }

  ghost predicate StandsAt(w: string, s: string, a: nat) {
    a + |w| <= |s| + 1 && (s + "\"")[a..a + |w|] == w
  }

  ghost predicate Target(s: string, n: nat) { exists w :: Long(w, n) && From(w, s) }

  ghost predicate Harmless(t: string, n: nat) {
    !Long(t, n) && (t != "" && t[0] == '"' ==> |t| >= 2 && t == Quoted(t[1..|t| - 1]) && !Target(t[1..|t| - 1], n))
  }

  /** From tokens `a` to tokens `b` over a stretch of text that prints `strings`: each of them is
      a token at most as often as it is printed, and one that gave away a long word less often. */
  ghost predicate Stretch(a: seq<string>, b: seq<string>, strings: multiset<string>, n: nat) {
    && a <= b
    && (forall s | Target(s, n) :: multiset(b)[Quoted(s)] <= multiset(a)[Quoted(s)] + strings[s])
    && (forall w | w in b && w !in a && Long(w, n) ::
          exists s :: From(w, s) && multiset(b)[Quoted(s)] < multiset(a)[Quoted(s)] + strings[s])
  }

  lemma StretchOn(a: seq<string>, b: seq<string>, c: seq<string>, s1: multiset<string>, s2: multiset<string>, n: nat)
    requires Stretch(a, b, s1, n) && Stretch(b, c, s2, n)
    ensures Stretch(a, c, s1 + s2, n)
  {
    hide Long, From, Quoted;
    forall w | w in c && w !in a && Long(w, n)
      ensures exists s :: From(w, s) && multiset(c)[Quoted(s)] < multiset(a)[Quoted(s)] + (s1 + s2)[s]
    {
      if w in b {
        var s :| From(w, s) && multiset(b)[Quoted(s)] < multiset(a)[Quoted(s)] + s1[s];
        assert Target(s, n);
      } else {
        var s :| From(w, s) && multiset(c)[Quoted(s)] < multiset(b)[Quoted(s)] + s2[s];
        assert Target(s, n);
      }
    }
  }

  lemma StretchMore(a: seq<string>, b: seq<string>, strings: multiset<string>, more: multiset<string>, n: nat)
    requires Stretch(a, b, strings, n)
    ensures Stretch(a, b, strings + more, n)
  {
    hide Long, From, Quoted;
    forall w | w in b && w !in a && Long(w, n)
      ensures exists s :: From(w, s) && multiset(b)[Quoted(s)] < multiset(a)[Quoted(s)] + (strings + more)[s]
    {
      var s :| From(w, s) && multiset(b)[Quoted(s)] < multiset(a)[Quoted(s)] + strings[s];
    }
  }

  /** Harmless tokens change nothing. */
  lemma StretchHarmless(a: seq<string>, b: seq<string>, n: nat)
    requires a <= b && forall t | t in b[|a|..] :: Harmless(t, n)
    ensures Stretch(a, b, multiset{}, n)
  {
    var new' := b[|a|..];
    assert b == a + new';
    forall s | Target(s, n)
      ensures multiset(b)[Quoted(s)] <= multiset(a)[Quoted(s)]
    {
      QuotedOnce(s, s);
      assert Quoted(s)[1..|Quoted(s)| - 1] == s;
      assert Quoted(s) !in new';
    }
  }

  lemma StretchNone(a: seq<string>, n: nat)
    ensures Stretch(a, a, multiset{}, n)
  {
    StretchHarmless(a, a, n);
  }

  // ------------------------------------------------ what an open string holds

  /** The text between two strings; or the end of a short unclean key whose closing quote was
      taken for its own, and the text behind it. */
  ghost predicate Held(text: string, n: nat) {
    && text != "" && text[0] == '"'
    && (NoSpecial(text[1..]) || exists i | 0 <= i <= n :: Spilled(text, i))
  }

  ghost predicate Spilled(text: string, i: nat) {
    i + 2 < |text| && text[i + 1] == '"' && text[i + 2] == ':' && NoSpecial(text[i + 2..])
  }

  lemma HeldGrows(text: string, c: char, n: nat)
    requires Held(text, n) && !Special(c)
    ensures Held(text + [c], n)
  {
    var text' := text + [c];
    if NoSpecial(text[1..]) {
      assert text'[1..] == text[1..] + [c];
    } else {
      var i :| 0 <= i <= n && Spilled(text, i);
      assert text'[i + 2..] == text[i + 2..] + [c];
      assert Spilled(text', i);
    }
  }

  lemma PartOf(text: string, w: string, a: nat, k: nat)
    requires text != "" && StandsAt(w, text[1..], a) && a <= k < a + |w| && k + 1 < |text|
    ensures w[k - a] == text[k + 1]
  {
    assert (text[1..] + "\"")[k] == text[k + 1];
  }

  /** A long stretch of it without the end of a word has no special character inside. */
  lemma HeldPart(text: string, n: nat, w: string, a: nat)
    requires Held(text, n) && StandsAt(w, text[1..], a) && |w| >= n + 2 && NoEnd(w)
    ensures NoSpecial(w[1..|w| - 1])
  {
    var inner := w[1..|w| - 1];
    if NoSpecial(text[1..]) {
      forall k | 0 <= k < |inner|
        ensures !Special(inner[k])
      {
        PartOf(text, w, a, a + k + 1);
        assert text[a + k + 2] == text[1..][a + k + 1];
      }
    } else {
      var i :| 0 <= i <= n && Spilled(text, i);
      if a <= i + 1 {
        PartOf(text, w, a, i + 1);
      }
      assert i + 1 < a;
      forall k | 0 <= k < |inner|
        ensures !Special(inner[k])
      {
        PartOf(text, w, a, a + k + 1);
        assert text[a + k + 2] == text[i + 2..][a + k - i];
      }
    }
  }

  /** Such a string is never one that gives away a long word. */
  lemma HeldIsHarmless(text: string, n: nat)
    requires Held(text, n)
    ensures Harmless(text + "\"", n) && text + "\"" == Quoted(text[1..])
  {
    var t, s := text + "\"", text[1..];
    assert t[1..|t| - 1] == s;
    assert text == "\"" + s;
    forall w | From(w, s)
      ensures !Long(w, n)
    {
      var a: nat :| StandsAt(w, s, a);
      if |w| >= n + 2 && NoEnd(w) {
        HeldPart(text, n, w, a);
      }
    }
  }

  // ------------------------------------------------- piece by piece

  function All(l: Lexer): seq<string> { l.out + if l.mode.InWord? then [l.mode.text] else [] }

  /** Before a string or a value. */
  ghost predicate Ready(l: Lexer, n: nat) {
    !l.escaped && (l.mode.Between? || (l.mode.InString? && Held(l.mode.text, n)))
  }

  /** Behind one, where a word may still be open. */
  ghost predicate Left(l: Lexer, n: nat) { !l.escaped && (l.mode.InWord? || Ready(l, n)) }

  lemma FedMark(l: Lexer, c: char, n: nat)
    requires Left(l, n) && IsStructural(c) && (l.mode.InWord? ==> IsKeyword([c]))
    ensures Ready(Feed(l, c), n) && Stretch(All(l), Feed(l, c).out, multiset{}, n)
  {
    match l.mode
    case InString(text) =>
      HeldGrows(text, c, n);
      StretchNone(l.out, n);
    case _ =>
      assert Harmless([c], n);
      assert Feed(l, c).out == All(l) + [[c]];
      StretchHarmless(All(l), All(l) + [[c]], n);
  }

  /** Neither a backslash nor a quote ends a token. */
  lemma OrdinaryChars(c: char)
    ensures IsStructural(c) || IsSpace(c) || IsKeyword([c]) ==> !Special(c)
    ensures IsKeyword([c]) ==> IsStructural(c)
  {
  }

  lemma FedPlainChar(l: Lexer, c: char, n: nat)
    requires !l.escaped && !IsStructural(c) && !IsSpace(c) && !Special(c)
    requires l.mode.InString? ==> Held(l.mode.text, n)
    ensures var l' := Feed(l, c);
            && l'.out == l.out && !l'.escaped
            && (l.mode.Between? ==> l'.mode == InWord([c]))
            && (l.mode.InWord? ==> l'.mode == InWord(l.mode.text + [c]))
            && (l.mode.InString? ==> l'.mode.InString? && Held(l'.mode.text, n))
  {
    hide IsStructural, IsSpace, IsKeyword, Held;
    OrdinaryChars(c);
    if l.mode.InString? { HeldGrows(l.mode.text, c, n); }
  }

  lemma {:induction false} FedPlain(l: Lexer, w: string, n: nat)
    requires Ready(l, n) && IsWord(w) && NoSpecial(w)
    ensures var l' := FeedAll(l, w);
            && l'.out == l.out && !l'.escaped
            && (l.mode.Between? ==> l'.mode == InWord(w))
            && (l.mode.InString? ==> l'.mode.InString? && Held(l'.mode.text, n))
  {
    hide Feed, Held, IsStructural, IsSpace;
    var before, c := w[..|w| - 1], w[|w| - 1];
    assert w == before + [c];
    if before == "" {
      assert FeedAll(l, before) == l;
    } else {
      FedPlain(l, before, n);
    }
    FedPlainChar(FeedAll(l, before), c, n);
  }

  lemma FedWord(l: Lexer, w: string, n: nat)
    requires Ready(l, n) && IsWord(w) && NoSpecial(w)
    ensures Left(FeedAll(l, w), n) && Stretch(l.out, All(FeedAll(l, w)), multiset{}, n)
  {
    FedPlain(l, w, n);
    if l.mode.Between? {
      assert Harmless(w, n);
      StretchHarmless(l.out, l.out + [w], n);
    } else {
      StretchNone(l.out, n);
    }
  }

  /** A clean text inside a string stays inside it. */
  lemma {:induction false} FedInside(l: Lexer, s: string)
    requires l.mode.InString? && !l.escaped && Clean(s)
    ensures FeedAll(l, s) == l.(mode := InString(l.mode.text + s))
    decreases |s|
  {
    hide FeedAll, IsStructural, IsSpace, IsKeyword;
    if s == "" {
      FeedNothing(l);
      assert l.mode.text + s == l.mode.text;
    } else {
      FeedFirst(l, s);
      if s[0] == '\\' {
        FeedFirst(Feed(l, s[0]), s[1..]);
        assert s[1..][1..] == s[2..];
        FedInside(Feed(Feed(l, s[0]), s[1]), s[2..]);
        assert l.mode.text + ['\\', s[1]] + s[2..] == l.mode.text + s;
      } else {
        FedInside(Feed(l, s[0]), s[1..]);
        assert l.mode.text + [s[0]] + s[1..] == l.mode.text + s;
      }
    }
  }

  /** In a clean text every quote follows a backslash. */
  lemma {:induction false} CleanQuote(s: string, j: nat)
    requires Clean(s) && j < |s| && s[j] == '"'
    ensures j > 0 && s[j - 1] == '\\'
    decreases |s|
  {
    if s[0] == '\\' {
      if j > 1 { CleanQuote(s[2..], j - 2); }
    } else {
      CleanQuote(s[1..], j - 1);
    }
  }

  /** What misreading the text of a string can give. */
  ghost predicate Cut(t: string, s: string) {
    t != "" && t[0] != '"' && (|t| == 1 || From(t, s))
  }

  ghost predicate Misread(l: Lexer, base: seq<string>, s: string, j: nat) {
    && j <= |s| && !l.escaped && base <= l.out && (forall t | t in l.out[|base|..] :: Cut(t, s))
    && match l.mode
       case Between => j > 0 ==> s[j - 1] != '\\'
       case InWord(w) => 0 < |w| <= j && w == s[j - |w|..j] && w[0] != '"'
       case InString(_) => false
  }

  lemma MisreadOne(l: Lexer, base: seq<string>, s: string, j: nat)
    requires Misread(l, base, s, j) && j < |s| && Clean(s)
    ensures Misread(Feed(l, s[j]), base, s, j + 1)
  {
    hide Clean, Feed, Misread;
    MisreadModes(l, base, s, j);
    if l.mode.Between? { MisreadBetween(l, base, s, j); } else { MisreadWord(l, base, s, j); }
  }

  lemma MisreadModes(l: Lexer, base: seq<string>, s: string, j: nat)
    requires Misread(l, base, s, j)
    ensures l.mode.Between? || l.mode.InWord?
  {
  }

  lemma MisreadBetween(l: Lexer, base: seq<string>, s: string, j: nat)
    requires Misread(l, base, s, j) && j < |s| && Clean(s) && l.mode.Between?
    ensures Misread(Feed(l, s[j]), base, s, j + 1)
  {
    hide IsStructural, IsSpace, IsKeyword, Clean, From;
    var c := s[j];
    OrdinaryChars(c);
    if c == '"' { CleanQuote(s, j); }
    MoreTokens(base, l.out, [[c]]);
    assert s[j..j + 1] == [c];
  }

  lemma MisreadWord(l: Lexer, base: seq<string>, s: string, j: nat)
    requires Misread(l, base, s, j) && j < |s| && l.mode.InWord?
    ensures Misread(Feed(l, s[j]), base, s, j + 1)
  {
    hide IsStructural, IsSpace, IsKeyword, From;
    var c, w := s[j], l.mode.text;
    OrdinaryChars(c);
    CutWord(w, s, j);
    MoreTokens(base, l.out, [w] + [[c]]);
    MoreTokens(base, l.out, [w]);
    assert l.out + [w] + [[c]] == l.out + ([w] + [[c]]);
  }

  lemma MoreTokens(base: seq<string>, out: seq<string>, more: seq<string>)
    requires base <= out
    ensures base <= out + more && (out + more)[|base|..] == out[|base|..] + more
  {
  }

  lemma CutWord(w: string, s: string, j: nat)
    requires 0 < |w| <= j <= |s| && w == s[j - |w|..j] && w[0] != '"'
    ensures Cut(w, s)
    ensures j < |s| ==> w + [s[j]] == s[j - |w|..j + 1]
    ensures j == |s| ==> Cut(w + "\"", s)
  {
    assert (s + "\"")[j - |w|..j] == w;
    assert StandsAt(w, s, j - |w|);
    if j == |s| {
      assert (s + "\"")[j - |w|..j + 1] == w + "\"";
      assert StandsAt(w + "\"", s, j - |w|);
    }
  }

  lemma {:induction false} MisreadAll(l: Lexer, s: string, j: nat)
    requires l.mode.Between? && !l.escaped && Clean(s) && j <= |s|
    ensures Misread(FeedAll(l, s[..j]), l.out, s, j)
  {
    hide Feed;
    if j == 0 {
      assert s[..0] == "" && l.out[|l.out|..] == [];
    } else {
      MisreadAll(l, s, j - 1);
      assert s[..j][..j - 1] == s[..j - 1];
      MisreadOne(FeedAll(l, s[..j - 1]), l.out, s, j - 1);
    }
  }

  lemma FedQuoted(l: Lexer, s: string)
    ensures FeedAll(l, Quoted(s)) == Feed(FeedAll(Feed(l, '"'), s), '"')
  {
    hide Feed;
    assert Quoted(s) == ['"'] + (s + ['"']);
    FeedConcat(l, ['"'], s + ['"']);
    FeedOne(l, '"');
    FeedConcat(Feed(l, '"'), s, ['"']);
    FeedOne(FeedAll(Feed(l, '"'), s), '"');
  }

  /** A clean string, read as one or misread. */
  lemma FedString(l: Lexer, s: string, n: nat)
    requires Ready(l, n) && Clean(s)
    ensures Left(FeedAll(l, Quoted(s)), n) && Stretch(l.out, All(FeedAll(l, Quoted(s))), multiset{s}, n)
  {
    hide Clean;
    FedQuoted(l, s);
    if l.mode.Between? {
      FedInside(Feed(l, '"'), s);
      assert "\"" + s + "\"" == Quoted(s);
      StretchRead(l.out, s, n);
    } else {
      FedMisread(l, s, n);
    }
  }

  lemma StretchRead(a: seq<string>, s: string, n: nat)
    ensures Stretch(a, a + [Quoted(s)], multiset{s}, n)
  {
    forall t | Target(t, n)
      ensures multiset(a + [Quoted(s)])[Quoted(t)] <= multiset(a)[Quoted(t)] + multiset{s}[t]
    {
      QuotedOnce(s, t);
    }
  }

  lemma FedMisread(l: Lexer, s: string, n: nat)
    requires Ready(l, n) && Clean(s) && l.mode.InString?
    ensures Left(FeedAll(l, Quoted(s)), n) && Stretch(l.out, All(FeedAll(l, Quoted(s))), multiset{s}, n)
  {
    hide Clean, Held, Long, From, Target;
    FedQuoted(l, s);
    var closed := Feed(l, '"');
    HeldIsHarmless(l.mode.text, n);
    assert closed.out[|l.out|..] == [l.mode.text + "\""];
    StretchHarmless(l.out, closed.out, n);
    MisreadAll(closed, s, |s|);
    assert s[..|s|] == s;
    var end := FeedAll(closed, s);
    var l' := Feed(end, '"');
    MisreadEnd(end, closed.out, s);
    if l'.mode.InString? { FreshHeld(n); }
    StretchCut(closed.out, All(l'), s, n);
    StretchOn(l.out, closed.out, All(l'), multiset{}, multiset{s}, n);
  }

  lemma FreshHeld(n: nat)
    ensures Held("\"", n)
  {
  }

  lemma MisreadEnd(l: Lexer, base: seq<string>, s: string)
    requires Misread(l, base, s, |s|)
    ensures var l' := Feed(l, '"');
            && !l'.escaped && (l'.mode.InWord? || l'.mode == InString("\""))
            && base <= All(l') && forall t | t in All(l')[|base|..] :: Cut(t, s)
  {
    hide From;
    if l.mode.InWord? {
      CutWord(l.mode.text, s, |s|);
      MoreTokens(base, l.out, [l.mode.text + "\""]);
    } else {
      MoreTokens(base, l.out, []);
    }
  }

  /** A misread string is short of its own token, whatever words were cut out of it. */
  lemma StretchCut(a: seq<string>, b: seq<string>, s: string, n: nat)
    requires a <= b && forall t | t in b[|a|..] :: Cut(t, s)
    ensures Stretch(a, b, multiset{s}, n)
  {
    hide From, Target;
    var new' := b[|a|..];
    assert b == a + new';
    forall t
      ensures multiset(b)[Quoted(t)] == multiset(a)[Quoted(t)]
    {
      QuotedOnce(t, t);
      assert Quoted(t) !in new';
    }
    forall w | w in b && w !in a && Long(w, n)
      ensures From(w, s)
    {
      assert w in new';
    }
  }

  // ------------------------------------------------ a short string of any kind

  ghost predicate Small(t: string, n: nat) {
    t != "" && if t[0] == '"' then 2 <= |t| <= n + 2 && t == Quoted(t[1..|t| - 1]) else |t| <= n + 1
  }

  lemma SmallIsHarmless(t: string, n: nat)
    requires Small(t, n)
    ensures Harmless(t, n)
  {
    if t[0] == '"' {
      var s := t[1..|t| - 1];
      forall w | From(w, s)
        ensures !Long(w, n)
      {
        var a: nat :| StandsAt(w, s, a);
      }
    }
  }

  /** `j` characters into a string of at most `n`. */
  ghost predicate Short(l: Lexer, base: seq<string>, j: nat, n: nat) {
    && base <= l.out && (forall t | t in l.out[|base|..] :: Small(t, n))
    && match l.mode
       case Between => !l.escaped
       case InWord(w) => !l.escaped && 0 < |w| <= j && w[0] != '"'
       case InString(text) => 0 < |text| + (if l.escaped then 1 else 0) <= j + 1 && text != "" && text[0] == '"'
  }

  lemma ShortOne(l: Lexer, base: seq<string>, c: char, j: nat, n: nat)
    requires Short(l, base, j, n) && j < n
    ensures Short(Feed(l, c), base, j + 1, n)
  {
    hide IsStructural, IsSpace, IsKeyword;
    OrdinaryChars(c);
    match l.mode
    case Between =>
      MoreTokens(base, l.out, [[c]]);
    case InWord(w) =>
      MoreTokens(base, l.out, [w] + [[c]]);
      MoreTokens(base, l.out, [w]);
      assert l.out + [w] + [[c]] == l.out + ([w] + [[c]]);
    case InString(text) =>
      var t := text + "\"";
      assert t == Quoted(t[1..|t| - 1]);
      MoreTokens(base, l.out, [t]);
  }

  lemma {:induction false} ShortAll(l: Lexer, base: seq<string>, s: string, n: nat)
    requires Short(l, base, 0, n) && |s| <= n
    ensures Short(FeedAll(l, s), base, |s|, n)
  {
    hide Feed, Short;
    if s != "" {
      ShortAll(l, base, s[..|s| - 1], n);
      ShortOne(FeedAll(l, s[..|s| - 1]), base, s[|s| - 1], |s| - 1, n);
    }
  }

  /** Behind the quote that ends it: read, started anew, swallowed, or taken for its own. */
  lemma ShortEnd(l: Lexer, base: seq<string>, j: nat, n: nat)
    requires Short(l, base, j, n) && j <= n
    ensures var l' := Feed(Feed(l, '"'), ':');
            Ready(l', n) && base <= l'.out && forall t | t in l'.out[|base|..] :: Small(t, n)
  {
    match l.mode
    case Between =>
      MoreTokens(base, l.out, []);
    case InWord(w) =>
      assert Feed(Feed(l, '"'), ':').out == l.out + ([w + "\""] + [":"]);
      MoreTokens(base, l.out, [w + "\""] + [":"]);
    case InString(text) =>
      if l.escaped {
        var text' := text + ['\\', '"'] + [':'];
        assert text'[|text| + 2..] == ":";
        assert Spilled(text', |text|);
        MoreTokens(base, l.out, []);
      } else {
        var t := text + "\"";
        assert t == Quoted(t[1..|t| - 1]);
        assert Feed(Feed(l, '"'), ':').out == l.out + ([t] + [":"]);
        MoreTokens(base, l.out, [t] + [":"]);
      }
  }

  /** A key no longer than `n`, clean or not, with the colon behind it. */
  lemma FedShort(l: Lexer, s: string, n: nat)
    requires Ready(l, n) && |s| <= n
    ensures var l' := FeedAll(l, Quoted(s) + ":"); Ready(l', n) && Stretch(l.out, l'.out, multiset{s}, n)
  {
    hide Small, Held, Ready, Short, Stretch, Harmless;
    ReadyModes(l, n);
    FedQuoted(l, s);
    FeedConcat(l, Quoted(s), ":");
    FeedOne(FeedAll(l, Quoted(s)), ':');
    var begun := Feed(l, '"');
    OpenShort(l, n);
    ShortAll(begun, begun.out, s, n);
    ShortEnd(FeedAll(begun, s), begun.out, |s|, n);
    var l' := FeedAll(l, Quoted(s) + ":");
    forall t | t in l'.out[|begun.out|..]
      ensures Harmless(t, n)
    {
      SmallIsHarmless(t, n);
    }
    StretchHarmless(begun.out, l'.out, n);
    StretchOn(l.out, begun.out, l'.out, multiset{}, multiset{}, n);
    StretchMore(l.out, l'.out, multiset{} + multiset{}, multiset{s}, n);
    assert multiset{} + multiset{} + multiset{s} == multiset{s};
  }

  lemma ReadyModes(l: Lexer, n: nat)
    requires Ready(l, n)
    ensures !l.escaped && (l.mode.Between? || (l.mode.InString? && Held(l.mode.text, n)))
  {
  }

  lemma OpenShort(l: Lexer, n: nat)
    requires Ready(l, n)
    ensures Short(Feed(l, '"'), Feed(l, '"').out, 0, n) && Stretch(l.out, Feed(l, '"').out, multiset{}, n)
  {
    hide Held, Harmless, Stretch;
    if l.mode.InString? {
      HeldIsHarmless(l.mode.text, n);
      assert Feed(l, '"').out[|l.out|..] == [l.mode.text + "\""];
      StretchHarmless(l.out, Feed(l, '"').out, n);
    } else {
      StretchNone(l.out, n);
    }
  }

  /** A key and its colon. */
  lemma FedKey(l: Lexer, s: string, n: nat)
    requires Ready(l, n) && (Clean(s) || |s| <= n)
    ensures var l' := FeedAll(l, Quoted(s) + ":"); Ready(l', n) && Stretch(l.out, l'.out, multiset{s}, n)
  {
    hide Clean, Ready, Left, Stretch, Feed;
    if |s| <= n {
      FedShort(l, s, n);
    } else {
      FedString(l, s, n);
      var read := FeedAll(l, Quoted(s));
      FeedConcat(l, Quoted(s), ":");
      FeedOne(read, ':');
      FedMark(read, ':', n);
      StretchOn(l.out, All(read), Feed(read, ':').out, multiset{s}, multiset{}, n);
      assert multiset{s} + multiset{} == multiset{s};
    }
  }

  // ------------------------------------------------- over a whole value

  /** The strings of a value, its keys among them. */
  ghost function Strings(v: Value): multiset<string> {
    match v
    case Str(s) => multiset{s}
    case List(items) => ItemStrings(items)
    case Dict(entries) => MemberStrings(entries)
    case _ => multiset{}
  }

  ghost function ItemStrings(items: seq<Value>): multiset<string> {
    if items == [] then multiset{} else Strings(items[0]) + ItemStrings(items[1..])
  }

  ghost function MemberStrings(entries: seq<Entry>): multiset<string> {
    if entries == [] then multiset{}
    else multiset{entries[0].key} + Strings(entries[0].val) + MemberStrings(entries[1..])
  }

  /** No unclean key is longer than `n`. */
  ghost predicate KeysShort(v: Value, n: nat) {
    match v
    case List(items) => forall i | 0 <= i < |items| :: KeysShort(items[i], n)
    case Dict(entries) =>
      forall i | 0 <= i < |entries| :: (Clean(entries[i].key) || |entries[i].key| <= n) && KeysShort(entries[i].val, n)
    case _ => true
  }

  ghost predicate Reads(v: Value, n: nat) { Plain(v) && CleanStrings(v) && KeysShort(v, n) }

  /** Reading goes from `l` to `l'` over a text that prints `strings`. */
  ghost predicate Goes(l: Lexer, l': Lexer, strings: multiset<string>, n: nat) {
    Left(l', n) && Stretch(All(l), All(l'), strings, n)
  }

  lemma GoesOn(l: Lexer, l1: Lexer, l2: Lexer, s1: multiset<string>, s2: multiset<string>, n: nat)
    requires Goes(l, l1, s1, n) && Goes(l1, l2, s2, n)
    ensures Goes(l, l2, s1 + s2, n)
  {
    StretchOn(All(l), All(l1), All(l2), s1, s2, n);
  }

  lemma GoesNowhere(l: Lexer, n: nat)
    requires Left(l, n)
    ensures Goes(l, l, multiset{}, n)
  {
    StretchNone(All(l), n);
  }

  lemma ReadyIsLeft(l: Lexer, n: nat)
    requires Ready(l, n)
    ensures Left(l, n) && All(l) == l.out
  {
  }

  lemma GoesOverMark(l: Lexer, c: char, n: nat)
    requires Left(l, n) && IsStructural(c) && (l.mode.InWord? ==> IsKeyword([c]))
    ensures Ready(Feed(l, c), n) && Goes(l, Feed(l, c), multiset{}, n) && FeedAll(l, [c]) == Feed(l, c)
  {
    FedMark(l, c, n);
    ReadyIsLeft(Feed(l, c), n);
    FeedOne(l, c);
  }

  lemma GoesOverLeaf(l: Lexer, v: Value, n: nat)
    requires Ready(l, n) && Reads(v, n) && !IsContainer(v)
    ensures Goes(l, FeedAll(l, LeafText(v)), Strings(v), n)
  {
    hide Stretch, Left, Ready, Clean;
    ReadyIsLeft(l, n);
    if v.Str? {
      FedString(l, v.s, n);
    } else {
      LeafIsWord(v);
      LeafIsPlain(v);
      FedWord(l, LeafText(v), n);
    }
  }

  lemma LeafIsPlain(v: Value)
    requires LeafInRange(v) && !v.Str?
    ensures NoSpecial(LeafText(v))
  {
    if v.Int? {
      var m := if v.n < 0 then -v.n else v.n;
      assert forall i | 0 <= i < |Decimal(m)| :: IsDigit(Decimal(m)[i]);
      assert forall c: char | IsDigit(c) || c == '-' :: !Special(c);
    }
  }

  lemma FeedTwice(l: Lexer, a: string, b: string, c: string)
    ensures FeedAll(l, a + b + c) == FeedAll(FeedAll(FeedAll(l, a), b), c)
  {
    FeedConcat(l, a + b, c);
    FeedConcat(l, a, b);
  }

  /** Over a whole value. */
  lemma {:induction false} GoesOver(l: Lexer, v: Value, n: nat)
    requires Ready(l, n) && Reads(v, n)
    ensures Goes(l, FeedAll(l, Render(v)), Strings(v), n)
    ensures IsContainer(v) ==> Ready(FeedAll(l, Render(v)), n)
    decreases v, 0
  {
    hide Goes, Ready, Left, Feed, FeedAll, All, LeafText;
    if IsContainer(v) {
      var open, inner, close := RenderParts(v);
      ReadyIsLeft(l, n);
      ReadyModes(l, n);
      GoesOverMark(l, open, n);
      var l1 := Feed(l, open);
      ReadyIsLeft(l1, n);
      if v.List? { GoesOverItems(l1, v.items, 0, n); } else { GoesOverMembers(l1, v.entries, 0, n); }
      var l2 := FeedAll(l1, inner);
      LeftOf(l1, l2, Strings(v), n);
      GoesOverMark(l2, close, n);
      FeedTwice(l, [open], inner, [close]);
      GoesOn(l, l1, l2, multiset{}, Strings(v), n);
      GoesOn(l, l2, Feed(l2, close), multiset{} + Strings(v), multiset{}, n);
      assert multiset{} + Strings(v) + multiset{} == Strings(v);
    } else {
      GoesOverLeaf(l, v, n);
    }
  }

  lemma LeftOf(l: Lexer, l': Lexer, strings: multiset<string>, n: nat)
    requires Goes(l, l', strings, n)
    ensures Left(l', n)
  {
  }

  lemma RenderParts(v: Value) returns (open: char, inner: string, close: char)
    requires IsContainer(v)
    ensures Render(v) == [open] + inner + [close]
    ensures inner == if v.List? then RenderItems(v.items, 0) else RenderMembers(v.entries, 0)
    ensures IsStructural(open) && IsStructural(close) && IsKeyword([close])
    ensures v.List? ==> v.items[0..] == v.items
    ensures v.Dict? ==> v.entries[0..] == v.entries
  {
    if v.List? {
      open, inner, close := '[', RenderItems(v.items, 0), ']';
    } else {
      open, inner, close := '{', RenderMembers(v.entries, 0), '}';
    }
  }

  lemma GoesOverComma(l: Lexer, i: nat, n: nat)
    requires Left(l, n) && (i == 0 ==> Ready(l, n))
    ensures var l' := FeedAll(l, if i > 0 then "," else ""); Ready(l', n) && Goes(l, l', multiset{}, n)
  {
    if i > 0 {
      GoesOverMark(l, ',', n);
    } else {
      GoesNowhere(l, n);
    }
  }

  lemma {:induction false} GoesOverItems(l: Lexer, items: seq<Value>, i: nat, n: nat)
    requires i <= |items| && forall j | 0 <= j < |items| :: Reads(items[j], n)
    requires Left(l, n) && (i == 0 ==> Ready(l, n))
    ensures Goes(l, FeedAll(l, RenderItems(items, i)), ItemStrings(items[i..]), n)
    decreases items, |items| - i
  {
    hide Goes, Ready, Left, FeedAll, Render, Reads, Strings;
    if i == |items| {
      FeedNothing(l);
      GoesNowhere(l, n);
    } else {
      var comma, text, more := if i > 0 then "," else "", Render(items[i]), RenderItems(items, i + 1);
      FeedTwice(l, comma, text, more);
      GoesOverComma(l, i, n);
      var l1 := FeedAll(l, comma);
      GoesOver(l1, items[i], n);
      var l2 := FeedAll(l1, text);
      LeftOf(l1, l2, Strings(items[i]), n);
      GoesOverItems(l2, items, i + 1, n);
      var l3, others := FeedAll(l2, more), ItemStrings(items[i + 1..]);
      GoesOn(l, l1, l2, multiset{}, Strings(items[i]), n);
      GoesOn(l, l2, l3, multiset{} + Strings(items[i]), others, n);
      assert items[i..][1..] == items[i + 1..];
      assert multiset{} + Strings(items[i]) + others == ItemStrings(items[i..]);
    }
  }

  lemma FeedNothing(l: Lexer)
    ensures FeedAll(l, "") == l
  {
  }

  lemma GoesOverKey(l: Lexer, s: string, n: nat)
    requires Ready(l, n) && (Clean(s) || |s| <= n)
    ensures var l' := FeedAll(l, "\"" + s + "\":"); Ready(l', n) && Goes(l, l', multiset{s}, n)
  {
    hide Ready, Stretch, Clean, Feed, FeedAll;
    FedKey(l, s, n);
    ReadyIsLeft(l, n);
    assert Quoted(s) + ":" == "\"" + s + "\":";
    ReadyIsLeft(FeedAll(l, Quoted(s) + ":"), n);
  }

  lemma {:induction false} GoesOverMembers(l: Lexer, entries: seq<Entry>, i: nat, n: nat)
    requires i <= |entries|
    requires forall j | 0 <= j < |entries| :: (Clean(entries[j].key) || |entries[j].key| <= n) && Reads(entries[j].val, n)
    requires Left(l, n) && (i == 0 ==> Ready(l, n))
    ensures Goes(l, FeedAll(l, RenderMembers(entries, i)), MemberStrings(entries[i..]), n)
    decreases entries, |entries| - i
  {
    hide Goes, Ready, Left, FeedAll, Render, RenderMembers, Reads, Strings, Clean, MemberTokens;
    MembersTexts(entries, i, "");
    if i == |entries| {
      FeedNothing(l);
      GoesNowhere(l, n);
    } else {
      var e, more := entries[i], RenderMembers(entries, i + 1);
      var comma, key, text := if i > 0 then "," else "", "\"" + e.key + "\":", Render(e.val);
      MemberFeed(l, entries, i);
      GoesOverComma(l, i, n);
      var l1 := FeedAll(l, comma);
      GoesOverKey(l1, e.key, n);
      var l2 := FeedAll(l1, key);
      GoesOver(l2, e.val, n);
      var l3 := FeedAll(l2, text);
      LeftOf(l2, l3, Strings(e.val), n);
      GoesOverMembers(l3, entries, i + 1, n);
      var l4, others := FeedAll(l3, more), MemberStrings(entries[i + 1..]);
      GoesOn(l, l1, l2, multiset{}, multiset{e.key}, n);
      GoesOn(l, l2, l3, multiset{} + multiset{e.key}, Strings(e.val), n);
      GoesOn(l, l3, l4, multiset{} + multiset{e.key} + Strings(e.val), others, n);
      assert entries[i..][1..] == entries[i + 1..];
      assert multiset{} + multiset{e.key} + Strings(e.val) + others == MemberStrings(entries[i..]);
    }
  }

  lemma MemberFeed(l: Lexer, entries: seq<Entry>, i: nat)
    requires i < |entries|
    ensures FeedAll(l, RenderMembers(entries, i)) ==
            FeedAll(FeedAll(FeedAll(FeedAll(l, if i > 0 then "," else ""), "\"" + entries[i].key + "\":"),
              Render(entries[i].val)), RenderMembers(entries, i + 1))
  {
    hide Render, RenderMembers, FeedAll, MemberTokens;
    MembersTexts(entries, i, "");
    var comma, key := if i > 0 then "," else "", "\"" + entries[i].key + "\":";
    var text, more := Render(entries[i].val), RenderMembers(entries, i + 1);
    assert RenderMembers(entries, i) + "" == RenderMembers(entries, i) && more + "" == more;
    assert RenderMembers(entries, i) == comma + (key + (text + more));
    FeedConcat(l, comma, key + (text + more));
    FeedConcat(FeedAll(l, comma), key, text + more);
    FeedConcat(FeedAll(FeedAll(l, comma), key), text, more);
  }

  // ------------------------------------------------- what a token can be

  /** Quoted as a whole, or without a character that ends a word. */
  ghost predicate Whole(t: string) {
    t != "" && if t[0] == '"' then |t| >= 2 && t == Quoted(t[1..|t| - 1]) else |t| == 1 || NoEnd(t)
  }

  /** After `read` characters. */
  ghost predicate Fine(l: Lexer, read: nat) {
    && (forall t | t in l.out :: Whole(t) && |t| <= read)
    && match l.mode
       case Between => !l.escaped
       case InString(text) => 0 < |text| + (if l.escaped then 1 else 0) <= read && text != "" && text[0] == '"'
       case InWord(text) => !l.escaped && 0 < |text| <= read && text[0] != '"' && NoEnd(text)
  }

  lemma FineOn(l: Lexer, c: char, read: nat)
    requires Fine(l, read)
    ensures Fine(Feed(l, c), read + 1)
  {
    hide IsStructural, IsSpace, IsKeyword;
    OrdinaryChars(c);
    match l.mode
    case Between =>
      assert [[c][0]] == [c];
    case InWord(text) =>
      assert Feed(l, c).out <= l.out + [text] + [[c]];
    case InString(text) =>
      var t := text + "\"";
      assert t == Quoted(t[1..|t| - 1]);
  }

  lemma {:induction false} FineAll(text: string)
    ensures Fine(FeedAll(Lexer(Between, false, []), text), |text|)
  {
    hide Feed, Fine;
    if text == "" {
      FineStart();
    } else {
      FineAll(text[..|text| - 1]);
      FineOn(FeedAll(Lexer(Between, false, []), text[..|text| - 1]), text[|text| - 1], |text| - 1);
    }
  }

  lemma FineStart()
    ensures Fine(Lexer(Between, false, []), 0)
  {
  }

  // ------------------------------------------------- where parsed strings come from

  lemma {:induction false} ItemsConcat(a: seq<Value>, b: seq<Value>)
    ensures ItemStrings(a + b) == ItemStrings(a) + ItemStrings(b)
  {
    hide Strings;
    if a == [] {
      assert a + b == b;
    } else {
      assert (a + b)[1..] == a[1..] + b;
      ItemsConcat(a[1..], b);
    }
  }

  lemma {:induction false} MembersConcat(a: seq<Entry>, b: seq<Entry>)
    ensures MemberStrings(a + b) == MemberStrings(a) + MemberStrings(b)
  {
    hide Strings;
    if a == [] {
      assert a + b == b;
    } else {
      assert (a + b)[1..] == a[1..] + b;
      MembersConcat(a[1..], b);
    }
  }

  lemma OneItem(v: Value)
    ensures ItemStrings([v]) == Strings(v)
  {
    assert [v][1..] == [];
  }

  lemma OneMember(e: Entry)
    ensures MemberStrings([e]) == multiset{e.key} + Strings(e.val)
  {
    assert [e][1..] == [];
  }

  lemma ItemPut(items: seq<Value>, i: nat, v: Value)
    requires i < |items|
    ensures ItemStrings(items[i := v]) + Strings(items[i]) == ItemStrings(items) + Strings(v)
  {
    hide Strings, ItemStrings;
    var a, b := items[..i], items[i + 1..];
    assert items == a + [items[i]] + b && items[i := v] == a + [v] + b;
    ItemsConcat(a + [items[i]], b);
    ItemsConcat(a + [v], b);
    ItemsConcat(a, [items[i]]);
    ItemsConcat(a, [v]);
    OneItem(items[i]);
    OneItem(v);
  }

  lemma MemberPut(entries: seq<Entry>, i: nat, v: Value)
    requires i < |entries|
    ensures MemberStrings(entries[i := Entry(entries[i].key, v)]) + Strings(entries[i].val) == MemberStrings(entries) + Strings(v)
  {
    hide Strings, MemberStrings;
    var a, b, e := entries[..i], entries[i + 1..], Entry(entries[i].key, v);
    assert entries == a + [entries[i]] + b && entries[i := e] == a + [e] + b;
    MembersConcat(a + [entries[i]], b);
    MembersConcat(a + [e], b);
    MembersConcat(a, [entries[i]]);
    MembersConcat(a, [e]);
    OneMember(entries[i]);
    OneMember(e);
  }

  lemma ChildPut(v: Value, i: nat, child: Value)
    requires IsChild(v, i)
    ensures Strings(WithChild(v, i, child)) + Strings(Child(v, i)) == Strings(v) + Strings(child)
  {
    hide ItemStrings, MemberStrings;
    if v.Dict? { MemberPut(v.entries, i, child); } else { ItemPut(v.items, i, child); }
  }

  /** Setting a key adds no more than the key and the value. */
  lemma KeySet(entries: seq<Entry>, key: string, v: Value)
    ensures MemberStrings(Emplace(entries, key, v)) <= MemberStrings(entries) + multiset{key} + Strings(v)
    ensures MemberStrings(Assign(entries, key, v)) <= MemberStrings(entries) + multiset{key} + Strings(v)
  {
    hide Strings, MemberStrings;
    var i, e := Place(entries, key), Entry(key, v);
    if Has(entries, key) {
      MemberPut(entries, i, v);
      assert Assign(entries, key, v) == entries[i := e] && e == Entry(entries[i].key, v);
      assert MemberStrings(entries[i := e]) <= MemberStrings(entries[i := e]) + Strings(entries[i].val);
    } else {
      MembersConcat(entries[..i] + [e], entries[i..]);
      MembersConcat(entries[..i], [e]);
      OneMember(e);
      MembersConcat(entries[..i], entries[i..]);
      assert entries == entries[..i] + entries[i..];
      assert Assign(entries, key, v) == Emplace(entries, key, v);
    }
  }

  /** Only its own quoted form gives the string `s`. */
  ghost predicate OnlyQuoted(tokens: seq<string>, s: string) {
    forall t | t in tokens && Unquote(t) == Some(s) :: t == Quoted(s)
  }

  /** No more often in the value than it was there before and the tokens taken held it. */
  ghost predicate Counts(r: Parsed, v: Value, tokens: seq<string>, s: string) {
    r.Done? ==>
      && OnlyQuoted(r.rest, s)
      && Strings(r.value)[s] + multiset(r.rest)[Quoted(s)] <= Strings(v)[s] + multiset(tokens)[Quoted(s)]
  }

  lemma LeafCounts(t: string, s: string)
    requires OnlyQuoted([t], s) && ParseBasic(t).Some?
    ensures Strings(ParseBasic(t).value)[s] <= multiset([t])[Quoted(s)]
  {
    assert t in [t];
  }

  lemma KeyCounts(t: string, s: string)
    requires OnlyQuoted([t], s) && Unquote(t).Some?
    ensures multiset{Unquote(t).value}[s] <= multiset([t])[Quoted(s)]
  {
    assert t in [t];
  }

  lemma OnlyPart(a: seq<string>, b: seq<string>, s: string)
    requires OnlyQuoted(a + b, s)
    ensures OnlyQuoted(a, s) && OnlyQuoted(b, s)
    ensures multiset(a + b)[Quoted(s)] == multiset(a)[Quoted(s)] + multiset(b)[Quoted(s)]
  {
    forall t | t in a && Unquote(t) == Some(s) ensures t == Quoted(s) { assert t in a + b; }
    forall t | t in b && Unquote(t) == Some(s) ensures t == Quoted(s) { assert t in a + b; }
  }

  /** The tokens of a member, one by one. */
  lemma NamedParts(tokens: seq<string>, s: string)
    requires OnlyQuoted(tokens, s) && |AfterComma(tokens)| > 2
    ensures var named := AfterComma(tokens);
            && OnlyQuoted([named[0]], s) && OnlyQuoted([named[2]], s) && OnlyQuoted(named[3..], s)
            && multiset([named[0]])[Quoted(s)] + multiset([named[2]])[Quoted(s)] + multiset(named[3..])[Quoted(s)]
                 <= multiset(tokens)[Quoted(s)]
            && |named[3..]| < |tokens|
  {
    hide Unquote, OnlyQuoted;
    var named := AfterComma(tokens);
    var comma := tokens[..|tokens| - |named|];
    assert tokens == comma + named;
    OnlyPart(comma, named, s);
    assert named == [named[0]] + ([named[1]] + ([named[2]] + named[3..]));
    OnlyPart([named[0]], [named[1]] + ([named[2]] + named[3..]), s);
    OnlyPart([named[1]], [named[2]] + named[3..], s);
    OnlyPart([named[2]], named[3..], s);
  }

  lemma ValuedParts(tokens: seq<string>, s: string)
    requires OnlyQuoted(tokens, s) && AfterComma(tokens) != []
    ensures var valued := AfterComma(tokens);
            && OnlyQuoted([valued[0]], s) && OnlyQuoted(valued[1..], s)
            && multiset([valued[0]])[Quoted(s)] + multiset(valued[1..])[Quoted(s)] <= multiset(tokens)[Quoted(s)]
            && |valued[1..]| < |tokens|
  {
    hide Unquote, OnlyQuoted;
    var valued := AfterComma(tokens);
    var comma := tokens[..|tokens| - |valued|];
    assert tokens == comma + valued;
    OnlyPart(comma, valued, s);
    assert valued == [valued[0]] + valued[1..];
    OnlyPart([valued[0]], valued[1..], s);
  }

  lemma {:induction false} FinishCounts(v: Value, tokens: seq<string>, s: string)
    requires OnlyQuoted(tokens, s)
    ensures Counts(Finish(v, tokens), v, tokens, s)
    decreases |tokens|, 1
  {
    match v
    case Dict(entries) => MembersCount(entries, tokens, s);
    case List(items) => ItemsCount(items, tokens, s);
    case _ =>
  }

  lemma EndCounts(v: Value, tokens: seq<string>, s: string)
    requires OnlyQuoted(tokens, s)
    ensures Counts(Done(v, tokens), v, tokens, s)
    ensures tokens != [] ==> Counts(Done(v, tokens[1..]), v, tokens, s)
  {
    hide Unquote, OnlyQuoted;
    if tokens != [] {
      assert tokens == [tokens[0]] + tokens[1..];
      OnlyPart([tokens[0]], tokens[1..], s);
    }
  }

  lemma MembersCount(entries: seq<Entry>, tokens: seq<string>, s: string)
    requires OnlyQuoted(tokens, s)
    ensures Counts(Finish(Dict(entries), tokens), Dict(entries), tokens, s)
    decreases |tokens|, 0
  {
    hide Finish, Close, Place, Emplace, Assign, ParseBasic, Unquote, OnlyQuoted, MemberStrings;
    FinishDict(entries, tokens);
    var named := AfterComma(tokens);
    EndCounts(Dict(entries), tokens, s);
    if |named| > 2 && tokens[0] != "}" && Unquote(named[0]).Some? {
      var key := Unquote(named[0]).value;
      NamedParts(tokens, s);
      KeyCounts(named[0], s);
      if named[2] == "{" || named[2] == "[" {
        var fresh' := if named[2] == "{" then Dict([]) else List([]);
        KeySet(entries, key, fresh');
        NoStrings();
        CloseCounts(Dict(Emplace(entries, key, fresh')), Place(entries, key), named[3..], s);
      } else if ParseBasic(named[2]).Some? {
        var leaf := ParseBasic(named[2]).value;
        LeafCounts(named[2], s);
        KeySet(entries, key, leaf);
        FinishCounts(Dict(Assign(entries, key, leaf)), named[3..], s);
      }
    }
  }

  lemma ItemsCount(items: seq<Value>, tokens: seq<string>, s: string)
    requires OnlyQuoted(tokens, s)
    ensures Counts(Finish(List(items), tokens), List(items), tokens, s)
    decreases |tokens|, 0
  {
    hide Finish, Close, ParseBasic, Unquote, OnlyQuoted, ItemStrings;
    FinishList(items, tokens);
    var valued := AfterComma(tokens);
    EndCounts(List(items), tokens, s);
    if valued != [] && tokens[0] != "]" {
      ValuedParts(tokens, s);
      if valued[0] == "{" || valued[0] == "[" {
        var fresh' := if valued[0] == "{" then Dict([]) else List([]);
        ItemAdded(items, fresh');
        NoStrings();
        CloseCounts(List(items + [fresh']), |items|, valued[1..], s);
      } else if ParseBasic(valued[0]).Some? {
        var leaf := ParseBasic(valued[0]).value;
        LeafCounts(valued[0], s);
        ItemAdded(items, leaf);
        FinishCounts(List(items + [leaf]), valued[1..], s);
      }
    }
  }

  lemma NoStrings()
    ensures Strings(Dict([])) == multiset{} && Strings(List([])) == multiset{}
  {
  }

  lemma ItemAdded(items: seq<Value>, v: Value)
    ensures Strings(List(items + [v])) == Strings(List(items)) + Strings(v)
  {
    ItemsConcat(items, [v]);
    OneItem(v);
  }

  lemma CloseCounts(v: Value, i: nat, tokens: seq<string>, s: string)
    requires OnlyQuoted(tokens, s) && IsChild(v, i)
    ensures Counts(Close(v, i, Finish(Child(v, i), tokens)), v, tokens, s)
    decreases |tokens|, 2
  {
    hide Finish, OnlyQuoted, Strings;
    FinishCounts(Child(v, i), tokens, s);
    var r := Finish(Child(v, i), tokens);
    if r.Done? {
      ChildPut(v, i, r.value);
      RestShorter(Child(v, i), tokens);
      FinishCounts(WithChild(v, i, r.value), r.rest, s);
      assert (Strings(WithChild(v, i, r.value)) + Strings(Child(v, i)))[s] == (Strings(v) + Strings(r.value))[s];
    }
  }

  lemma RestShorter(v: Value, tokens: seq<string>)
    ensures Finish(v, tokens).Done? ==> |Finish(v, tokens).rest| <= |tokens|
  {
  }

  // ------------------------------------------------- exactly which values survive

  /** Some token other than its quoted form gives the string `s`. */
  ghost predicate HasWord(tokens: seq<string>, s: string) {
    exists t | t in tokens :: Unquote(t) == Some(s) && t != Quoted(s)
  }

  /** What comes back holds no string more often than the text held it as a token, unless a
      word gave it. */
  lemma ReadCounts(input: string, v: Value, s: string)
    requires IsContainer(v) && ParseText(input) == Returns(v)
    ensures var tokens := Scan(input, Between).tokens;
            HasWord(tokens, s) || Strings(v)[s] <= multiset(tokens)[Quoted(s)]
  {
    hide Scan, Finish, Strings;
    var tokens := Scan(input, Between).tokens;
    NoStrings();
    if !HasWord(tokens, s) {
      var fresh' := if tokens[0] == "{" then Dict([]) else List([]);
      assert tokens == [tokens[0]] + tokens[1..];
      OnlyPart([tokens[0]], tokens[1..], s);
      FinishCounts(fresh', tokens[1..], s);
    }
  }

  /** The tokens of a printed value. */
  lemma PrintedTokens(v: Value, n: nat)
    requires Reads(v, n) && IsContainer(v)
    ensures var tokens := Scan(Render(v), Between).tokens;
            && Stretch([], tokens, Strings(v), n)
            && forall t | t in tokens :: Whole(t) && |t| <= |Render(v)|
  {
    hide Feed, FeedAll, Scan, Render, Whole, Strings, Reads, Long, From, Quoted;
    var l := Lexer(Between, false, []);
    GoesOver(l, v, n);
    FeedIsScan(l, Render(v));
    FineAll(Render(v));
    var l' := FeedAll(l, Render(v));
    var tokens := Scan(Render(v), Between).tokens;
    assert l'.out == [] + tokens == tokens;
    ReadyIsLeft(l', n);
  }

  /** A long word comes from a string that is short of a token, which must then be made up
      for by a yet longer word. */
  lemma NextWord(w: string, s: string, t: string, n: nat)
    requires Long(w, n) && From(w, s) && Unquote(t) == Some(s) && t != Quoted(s) && Whole(t)
    ensures Long(t, n) && |t| > |w|
  {
    var a: nat :| StandsAt(w, s, a);
    var inner := w[1..|w| - 1];
    var i :| 0 <= i < |inner| && Special(inner[i]);
    assert (s + "\"")[a + i + 1] == w[i + 1] == inner[i];
    assert s[a + i + 1] == inner[i];
    assert t[1..|t| - 1] == s;
  }

  lemma {:induction false} LongWordIsLost(v: Value, n: nat, w: string)
    requires Reads(v, n) && IsContainer(v) && w in Scan(Render(v), Between).tokens && Long(w, n)
    ensures ParseText(Render(v)) != Returns(v)
    decreases |Render(v)| - |w|
  {
    hide Scan, Render, Whole, Strings, Reads, Long, From, Quoted, ParseText, Unquote;
    PrintedTokens(v, n);
    var tokens := Scan(Render(v), Between).tokens;
    if ParseText(Render(v)) == Returns(v) {
      var s :| From(w, s) && multiset(tokens)[Quoted(s)] < multiset([])[Quoted(s)] + Strings(v)[s];
      ReadCounts(Render(v), v, s);
      var t :| t in tokens && Unquote(t) == Some(s) && t != Quoted(s);
      NextWord(w, s, t, n);
      LongWordIsLost(v, n, t);
    }
  }

  lemma {:induction false} ItemIn(items: seq<Value>, i: nat)
    requires i < |items|
    ensures Strings(items[i]) <= ItemStrings(items)
  {
    hide Strings;
    if i > 0 { ItemIn(items[1..], i - 1); }
  }

  lemma {:induction false} MemberIn(entries: seq<Entry>, i: nat)
    requires i < |entries|
    ensures entries[i].key in MemberStrings(entries) && Strings(entries[i].val) <= MemberStrings(entries)
  {
    hide Strings;
    if i > 0 { MemberIn(entries[1..], i - 1); }
  }

  ghost predicate Exceeds(v: Value, s: string, n: nat) { s in Strings(v) && !Clean(s) && |s| > n }

  lemma {:induction false} LongerKey(v: Value, n: nat)
    ensures KeysShort(v, n) || exists s :: Exceeds(v, s, n)
  {
    if KeysShort(v, n) {
    } else if v.List? {
      var i :| 0 <= i < |v.items| && !KeysShort(v.items[i], n);
      LongerKey(v.items[i], n);
      var s :| Exceeds(v.items[i], s, n);
      ItemIn(v.items, i);
      assert Exceeds(v, s, n);
    } else {
      var i :| 0 <= i < |v.entries| &&
        !((Clean(v.entries[i].key) || |v.entries[i].key| <= n) && KeysShort(v.entries[i].val, n));
      MemberIn(v.entries, i);
      if KeysShort(v.entries[i].val, n) {
        assert Exceeds(v, v.entries[i].key, n);
      } else {
        LongerKey(v.entries[i].val, n);
        var s :| Exceeds(v.entries[i].val, s, n);
        assert Exceeds(v, s, n);
      }
    }
  }

  lemma {:induction false} CleanIsShort(v: Value)
    requires KeysShort(v, 0)
    ensures CleanKeys(v)
  {
    match v
    case List(items) => forall i | 0 <= i < |items| ensures CleanKeys(items[i]) { CleanIsShort(items[i]); }
    case Dict(entries) =>
      forall i | 0 <= i < |entries| ensures CleanKeys(entries[i].val) { CleanIsShort(entries[i].val); }
    case _ =>
  }

  lemma {:induction false} LongestOf(strings: set<string>) returns (longest: string)
    requires strings != {}
    ensures longest in strings && forall s | s in strings :: |s| <= |longest|
  {
    var first :| first in strings;
    longest := first;
    var others := strings - {first};
    assert forall s | s in strings :: s == first || s in others;
    if others != {} {
      var other := LongestOf(others);
      if |other| > |longest| { longest := other; }
    }
  }

  /** The longest unclean key, if there is one. */
  lemma LongestUncleanKey(v: Value) returns (key: string)
    requires !CleanKeys(v)
    ensures key in Strings(v) && !Clean(key) && KeysShort(v, |key|)
  {
    var unclean := set s | s in Strings(v) && !Clean(s);
    if KeysShort(v, 0) { CleanIsShort(v); }
    LongerKey(v, 0);
    var s :| Exceeds(v, s, 0);
    assert s in unclean;
    key := LongestOf(unclean);
    LongerKey(v, |key|);
    assert forall t :: Exceeds(v, t, |key|) ==> t in unclean;
  }

  lemma {:induction false} NoSpecialIsClean(s: string)
    requires NoSpecial(s)
    ensures Clean(s)
  {
    if s != "" { NoSpecialIsClean(s[1..]); }
  }

  lemma UncleanNeedsLongWord(v: Value, key: string)
    requires Plain(v) && IsContainer(v) && CleanStrings(v)
    requires key in Strings(v) && !Clean(key) && KeysShort(v, |key|)
    ensures ParseText(Render(v)) != Returns(v)
  {
    hide Scan, Render, Strings, Clean, ParseText, Plain, CleanStrings, KeysShort, Stretch;
    var tokens := Scan(Render(v), Between).tokens;
    if ParseText(Render(v)) == Returns(v) {
      ReadCounts(Render(v), v, key);
      PrintedTokens(v, |key|);
      ScannedTokensAreClean(Render(v), Between);
      QuotedOnce(key, key);
      assert Quoted(key)[1..|Quoted(key)| - 1] == key;
      assert CleanToken(Quoted(key)) ==> Clean(key);
      assert Quoted(key) !in tokens;
      var t :| t in tokens && Unquote(t) == Some(key) && t != Quoted(key);
      if NoSpecial(key) { NoSpecialIsClean(key); }
      EmptyIsClean();
      assert Long(t, |key|);
      LongWordIsLost(v, |key|, t);
    }
  }

  lemma EmptyIsClean()
    ensures Clean("")
  {
  }

  /** The lists and dictionaries that printing and reading gives back are exactly those
      whose keys and strings are all clean. */
  lemma RoundTripExactly(v: Value)
    requires Plain(v) && IsContainer(v)
    ensures ParseText(Render(v)) == Returns(v) <==> CleanKeys(v) && CleanStrings(v)
  {
    hide ParseText, Render, CleanKeys, CleanStrings, Plain;
    if CleanKeys(v) && CleanStrings(v) {
      RoundTrip(v);
    } else if !CleanStrings(v) {
      if ParseText(Render(v)) == Returns(v) { ReadStringsAreClean(Render(v)); }
    } else {
      var key := LongestUncleanKey(v);
      UncleanNeedsLongWord(v, key);
    }
  }
}
