/** Tokenizing and parsing: the loops over a stream, a token queue and a parse stack,
    and the recursive definitions they agree with. */
module JsonParser {
  import opened Common
  import opened JsonValue

  // ---------------------------------------------------------- tokenizer

  datatype Scanned = Scanned(ok: bool, tokens: seq<string>)

  function Cons(token: string, r: Scanned): Scanned { Scanned(r.ok, [token] + r.tokens) }

  function Prepend(tokens: seq<string>, r: Scanned): Scanned { Scanned(r.ok, tokens + r.tokens) }

  predicate IsSpace(c: char) { c in " \n\r\t\U{0B}\U{08}" }

  predicate IsStructural(c: char) { c in "{}[],:" }

  /** Between tokens, inside a string or inside another token; `text` is what it holds so far. */
  datatype Mode = Between | InString(text: string) | InWord(text: string)

  function Scan(input: string, mode: Mode): Scanned
    decreases |input|
  {
    if input == "" then Scanned(true, []) else
    var c, rest := input[0], input[1..];
    match mode
    case Between =>
      if IsStructural(c) then Cons([c], Scan(rest, Between))
      else if c == '"' then Scan(rest, InString("\""))
      else if IsSpace(c) then Scan(rest, Between)
      else Scan(rest, InWord([c]))
    case InString(text) =>
      if c == '\\' then
        if rest == "" then Scanned(false, []) else Scan(rest[1..], InString(text + ['\\', rest[0]]))
      else if c == '"' then Cons(text + "\"", Scan(rest, Between))
      else Scan(rest, InString(text + [c]))
    case InWord(text) =>
      if IsKeyword([c]) then Cons(text, Cons([c], Scan(rest, Between)))
      else if IsSpace(c) then Cons(text, Scan(rest, Between))
      else Scan(rest, InWord(text + [c]))
  }

  lemma PrependCons(tokens: seq<string>, token: string, r: Scanned)
    ensures Prepend(tokens, Cons(token, r)) == Prepend(tokens + [token], r)
  {
    assert tokens + ([token] + r.tokens) == tokens + [token] + r.tokens;
  }

  /** What scanning on from position `i` adds to the tokens found so far. */
  ghost function Ahead(input: string, i: nat, tokens: seq<string>, mode: Mode): Scanned
    requires i <= |input|
  {
    Prepend(tokens, Scan(input[i..], mode))
  }

  lemma Step(input: string, i: nat, tokens: seq<string>, mode: Mode)
    requires i < |input|
    ensures var c := input[i];
            Ahead(input, i, tokens, mode) ==
            match mode
            case Between =>
              if IsStructural(c) then Ahead(input, i + 1, tokens + [[c]], Between)
              else if c == '"' then Ahead(input, i + 1, tokens, InString("\""))
              else if IsSpace(c) then Ahead(input, i + 1, tokens, Between)
              else Ahead(input, i + 1, tokens, InWord([c]))
            case InString(text) =>
              if c == '\\' then
                if i + 1 == |input| then Scanned(false, tokens)
                else Ahead(input, i + 2, tokens, InString(text + ['\\', input[i + 1]]))
              else if c == '"' then Ahead(input, i + 1, tokens + [text + "\""], Between)
              else Ahead(input, i + 1, tokens, InString(text + [c]))
            case InWord(text) =>
              if IsKeyword([c]) then Ahead(input, i + 1, tokens + [text] + [[c]], Between)
              else if IsSpace(c) then Ahead(input, i + 1, tokens + [text], Between)
              else Ahead(input, i + 1, tokens, InWord(text + [c]))
  {
    var c, rest := input[i], input[i + 1..];
    assert input[i..][1..] == rest;
    if mode.InString? && c == '\\' && rest != "" { assert rest[1..] == input[i + 2..]; }
    PrependCons(tokens, [c], Scan(rest, Between));
    if !mode.Between? {
      PrependCons(tokens, mode.text, Scan(rest, Between));
      PrependCons(tokens, mode.text + "\"", Scan(rest, Between));
      PrependCons(tokens, mode.text, Cons([c], Scan(rest, Between)));
      PrependCons(tokens + [mode.text], [c], Scan(rest, Between));
    }
  }

  method Tokenizer(input: string) returns (ok: bool, tokens: seq<string>)
    ensures ok == Scan(input, Between).ok
    ensures ok ==> tokens == Scan(input, Between).tokens
  {
    hide Scan;
    hide Prepend;
    tokens := [];
    var builder := "";
    var i := 0;
    Start(input);
    while i < |input|
      invariant 0 <= i <= |input|
      invariant builder == "" || i == |input|
      invariant i < |input| ==> Ahead(input, i, tokens, Between) == Scan(input, Between)
      invariant i == |input| ==> Scan(input, Between) == Scanned(true, tokens)
    {
      hide Ahead;
      var ch := input[i];
      Step(input, i, tokens, Between);
      i := i + 1;
      if IsStructural(ch) {
        tokens := tokens + [[ch]];
      } else if ch == '"' {
        builder := builder + "\"";
        assert builder == "\"";
        while i < |input|
          invariant 0 < i <= |input|
          invariant Ahead(input, i, tokens, InString(builder)) == Scan(input, Between)
        {
          ch := input[i];
          Step(input, i, tokens, InString(builder));
          i := i + 1;
          if ch == '\\' {
            if i == |input| {
              return false, tokens;
            }
            ch := input[i];
            i := i + 1;
            builder := builder + ['\\', ch];
          } else if ch == '"' {
            builder := builder + "\"";
            tokens := tokens + [builder];
            builder := "";
            break;
          } else {
            builder := builder + [ch];
          }
        }
      } else if !IsSpace(ch) {
        builder := builder + [ch];
        assert builder == [ch];
        while i < |input|
          invariant 0 < i <= |input|
          invariant Ahead(input, i, tokens, InWord(builder)) == Scan(input, Between)
        {
          ch := input[i];
          Step(input, i, tokens, InWord(builder));
          i := i + 1;
          if IsKeyword([ch]) {
            tokens := tokens + [builder];
            builder := "";
            tokens := tokens + [[ch]];
            break;
          }
          if IsSpace(ch) {
            tokens := tokens + [builder];
            builder := "";
            break;
          }
          builder := builder + [ch];
        }
      }
      AtEnd(input, tokens);
    }
    return true, tokens;
  }

  lemma Start(input: string)
    ensures Ahead(input, 0, [], Between) == Scan(input, Between)
    ensures input == "" ==> Scan(input, Between) == Scanned(true, [])
  {
    assert input[0..] == input;
  }

  lemma AtEnd(input: string, tokens: seq<string>)
    ensures forall mode :: Ahead(input, |input|, tokens, mode) == Scanned(true, tokens)
  {
    assert tokens + [] == tokens;
  }

  // -------------------------------------------------- recursive parsing

  /** A finished container and the tokens after it; no result; or an exception. */
  datatype Parsed = Done(value: Value, rest: seq<string>) | Bad | Thrown

  /** Finishes the container `v`, some of which may have been read already. */
  function Finish(v: Value, tokens: seq<string>): (r: Parsed)
    ensures r.Done? ==> |r.rest| <= |tokens|
    decreases |tokens|, 1
  {
    match v
    case Dict(entries) => Members(entries, tokens)
    case List(items) => Items(items, tokens)
    case _ => Bad
  }

  function Members(entries: seq<Entry>, tokens: seq<string>): (r: Parsed)
    ensures r.Done? ==> |r.rest| <= |tokens|
    decreases |tokens|, 0
  {
    if tokens == [] then Bad
    else if tokens[0] == "}" then Done(Dict(entries), tokens[1..])
    else if tokens[0] == "," && |tokens| == 1 then Bad
    else
      var named := if tokens[0] == "," then tokens[1..] else tokens;
      var key := Unquote(named[0]);
      if key.None? then Thrown
      else if |named| == 1 || named[1] != ":" || |named| == 2 then Bad
      else
        var rest := named[3..];
        if named[2] == "{" || named[2] == "[" then
          var i, grown := Place(entries, key.value), Emplace(entries, key.value, if named[2] == "{" then Dict([]) else List([]));
          var r := Finish(grown[i].val, rest);
          if r.Done? then Finish(WithChild(Dict(grown), i, r.value), r.rest) else r
        else if IsKeyword(named[2]) then Bad
        else
          var leaf := ParseBasic(named[2]);
          if leaf.None? then Thrown else Members(Assign(entries, key.value, leaf.value), rest)
  }

  function Items(items: seq<Value>, tokens: seq<string>): (r: Parsed)
    ensures r.Done? ==> |r.rest| <= |tokens|
    decreases |tokens|, 0
  {
    if tokens == [] then Done(List(items), [])
    else if tokens[0] == "]" then Done(List(items), tokens[1..])
    else if tokens[0] == "," && |tokens| == 1 then Bad
    else
      var valued := if tokens[0] == "," then tokens[1..] else tokens;
      var rest := valued[1..];
      if valued[0] == "{" || valued[0] == "[" then
        var grown := items + [if valued[0] == "{" then Dict([]) else List([])];
        var r := Finish(grown[|items|], rest);
        if r.Done? then Finish(WithChild(List(grown), |items|, r.value), r.rest) else r
      else if IsKeyword(valued[0]) then Bad
      else
        var leaf := ParseBasic(valued[0]);
        if leaf.None? then Thrown else Items(items + [leaf.value], rest)
  }

  predicate IsChild(v: Value, i: nat) {
    (v.Dict? && i < |v.entries|) || (v.List? && i < |v.items|)
  }

  function Child(v: Value, i: nat): Value
    requires IsChild(v, i)
  {
    if v.Dict? then v.entries[i].val else v.items[i]
  }

  function WithChild(v: Value, i: nat, child: Value): (r: Value)
    requires IsChild(v, i)
    ensures IsChild(r, i) && Child(r, i) == child
  {
    if v.Dict? then Dict(v.entries[i := Entry(v.entries[i].key, child)]) else List(v.items[i := child])
  }

  function ParseTokens(tokens: seq<string>): Parsed
    requires tokens != []
  {
    if tokens[0] == "{" then Finish(Dict([]), tokens[1..])
    else if tokens[0] == "[" then Finish(List([]), tokens[1..])
    else Bad
  }

  /** What a caller of `Json::parse` gets: a null value stands for every failure. */
  datatype Result = Returns(value: Value) | Throws

  function ResultOf(r: Parsed): Result {
    match r
    case Done(v, _) => Returns(v)
    case Bad => Returns(Null)
    case Thrown => Throws
  }

  function ParseText(input: string): Result {
    var scanned := Scan(input, Between);
    if !scanned.ok || scanned.tokens == [] then Returns(Null) else ResultOf(ParseTokens(scanned.tokens))
  }

  // ------------------------------------------------------ parsing with a stack

  /** A pointer into the tree being built: the way down from the root. */
  type Path = seq<nat>

  predicate IsPath(root: Value, path: Path)
    decreases |path|
  {
    path == [] || (IsChild(root, path[0]) && IsPath(Child(root, path[0]), path[1..]))
  }

  function At(root: Value, path: Path): Value
    requires IsPath(root, path)
    decreases |path|
  {
    if path == [] then root else At(Child(root, path[0]), path[1..])
  }

  /** The tree after the value `path` points to has become `v`. */
  function Put(root: Value, path: Path, v: Value): Value
    requires IsPath(root, path)
    decreases |path|
  {
    if path == [] then v else WithChild(root, path[0], Put(Child(root, path[0]), path[1..], v))
  }

  /** What the containers above `path` make of the value at `path` once it is finished as `r`. */
  ghost function Outer(root: Value, path: Path, r: Parsed): Parsed
    requires IsPath(root, path)
    decreases |path|
  {
    if path == [] then r else Close(root, path[0], Outer(Child(root, path[0]), path[1..], r))
  }

  /** Goes on with `v` once its child `i` has been finished as `r`. */
  ghost function Close(v: Value, i: nat, r: Parsed): Parsed
    requires IsChild(v, i)
  {
    if r.Done? then Finish(WithChild(v, i, r.value), r.rest) else r
  }

  lemma {:induction false} PutAt(root: Value, path: Path, v: Value)
    requires IsPath(root, path)
    ensures IsPath(Put(root, path, v), path) && At(Put(root, path, v), path) == v
    decreases |path|
  {
    if path != [] { PutAt(Child(root, path[0]), path[1..], v); }
  }

  /** The containers above do not care what is at `path` now. */
  lemma {:induction false} OuterPut(root: Value, path: Path, v: Value, r: Parsed)
    requires IsPath(root, path)
    ensures IsPath(Put(root, path, v), path) && Outer(Put(root, path, v), path, r) == Outer(root, path, r)
    decreases |path|
  {
    PutAt(root, path, v);
    if path != [] {
      var below := Child(root, path[0]);
      OuterPut(below, path[1..], v, r);
      var inner := Outer(below, path[1..], r);
      if inner.Done? {
        assert WithChild(WithChild(root, path[0], Put(below, path[1..], v)), path[0], inner.value)
            == WithChild(root, path[0], inner.value);
      }
    }
  }

  lemma {:induction false} OuterLast(root: Value, path: Path, i: nat, r: Parsed)
    requires IsPath(root, path) && IsChild(At(root, path), i)
    ensures IsPath(root, path + [i]) && At(root, path + [i]) == Child(At(root, path), i)
    ensures Outer(root, path + [i], r) == Outer(root, path, Close(At(root, path), i, r))
    decreases |path|
  {
    if path == [] {
      assert path + [i] == [i];
    } else {
      assert (path + [i])[1..] == path[1..] + [i];
      OuterLast(Child(root, path[0]), path[1..], i, r);
    }
  }

  lemma {:induction false} PathPrefix(root: Value, path: Path, i: nat)
    requires IsPath(root, path + [i])
    ensures IsPath(root, path) && IsChild(At(root, path), i)
    decreases |path|
  {
    if path == [] {
      assert path + [i] == [i];
    } else {
      assert (path + [i])[1..] == path[1..] + [i];
      PathPrefix(Child(root, path[0]), path[1..], i);
    }
  }

  /** The stack holds the containers from the root down to the one being read. */
  ghost predicate Nested(stack: seq<Path>) {
    if |stack| <= 1 then stack == [] || stack == [[]]
    else
      var top, below := stack[|stack| - 1], stack[..|stack| - 1];
      top != [] && below[|below| - 1] == top[..|top| - 1] && Nested(below)
  }

  ghost predicate IsStack(root: Value, stack: seq<Path>) {
    Nested(stack) && (stack != [] ==> IsPath(root, stack[|stack| - 1]))
  }

  /** How parsing will end when it goes on from here. */
  ghost function Ending(root: Value, stack: seq<Path>, tokens: seq<string>): Parsed
    requires IsStack(root, stack)
  {
    if stack == [] then Done(root, tokens) else
    var top := stack[|stack| - 1];
    Outer(root, top, Finish(At(root, top), tokens))
  }

  /** A finished container may leave the stack: the one below goes on from there. */
  lemma PopFinished(root: Value, stack: seq<Path>, tokens: seq<string>)
    requires IsStack(root, stack) && stack != []
    ensures IsStack(root, stack[..|stack| - 1])
    ensures Outer(root, stack[|stack| - 1], Done(At(root, stack[|stack| - 1]), tokens)) ==
            Ending(root, stack[..|stack| - 1], tokens)
  {
    hide Finish;
    var top, below := stack[|stack| - 1], stack[..|stack| - 1];
    if |stack| > 1 {
      var path, i := below[|below| - 1], top[|top| - 1];
      assert top == path + [i];
      PathPrefix(root, path, i);
      OuterLast(root, path, i, Done(At(root, top), tokens));
      SameChild(At(root, path), i);
    }
  }

  lemma SameChild(v: Value, i: nat)
    requires IsChild(v, i)
    ensures WithChild(v, i, Child(v, i)) == v
  {
  }

  /** A new child may join the stack above its container, which has just been given it. */
  lemma PushChild(root: Value, stack: seq<Path>, v: Value, i: nat, tokens: seq<string>)
    requires IsStack(root, stack) && stack != [] && IsChild(v, i)
    ensures var top := stack[|stack| - 1];
            var root' := Put(root, top, v);
            && IsStack(root', stack + [top + [i]])
            && Ending(root', stack + [top + [i]], tokens) == Outer(root, top, Close(v, i, Finish(Child(v, i), tokens)))
  {
    var top := stack[|stack| - 1];
    var root' := Put(root, top, v);
    PutAt(root, top, v);
    var r := Finish(Child(v, i), tokens);
    OuterLast(root', top, i, r);
    OuterPut(root, top, v, Close(v, i, r));
    assert (top + [i])[..|top|] == top;
    assert (stack + [top + [i]])[..|stack|] == stack;
  }

  /** The tokens of a member or an item, without the comma before it. */
  function AfterComma(tokens: seq<string>): seq<string> {
    if tokens != [] && tokens[0] == "," then tokens[1..] else tokens
  }

  /** One member further into a dictionary. */
  lemma FinishDict(entries: seq<Entry>, tokens: seq<string>)
    ensures tokens == [] ==> Finish(Dict(entries), tokens) == Bad
    ensures tokens != [] && tokens[0] == "}" ==> Finish(Dict(entries), tokens) == Done(Dict(entries), tokens[1..])
    ensures tokens != [] && tokens[0] != "}" ==>
              var r := Finish(Dict(entries), tokens);
              var named := AfterComma(tokens);
              if named == [] then r == Bad
              else if Unquote(named[0]).None? then r == Thrown
              else if |named| == 1 || named[1] != ":" || |named| == 2 then r == Bad
              else if named[2] == "{" || named[2] == "[" then
                var key := Unquote(named[0]).value;
                var grown := Dict(Emplace(entries, key, if named[2] == "{" then Dict([]) else List([])));
                r == Close(grown, Place(entries, key), Finish(Child(grown, Place(entries, key)), named[3..]))
              else if IsKeyword(named[2]) then r == Bad
              else if ParseBasic(named[2]).None? then r == Thrown
              else r == Finish(Dict(Assign(entries, Unquote(named[0]).value, ParseBasic(named[2]).value)), named[3..])
  {
  }

  /** One item further into a list. */
  lemma FinishList(items: seq<Value>, tokens: seq<string>)
    ensures tokens == [] ==> Finish(List(items), tokens) == Done(List(items), [])
    ensures tokens != [] && tokens[0] == "]" ==> Finish(List(items), tokens) == Done(List(items), tokens[1..])
    ensures tokens != [] && tokens[0] != "]" ==>
              var r := Finish(List(items), tokens);
              var valued := AfterComma(tokens);
              if valued == [] then r == Bad
              else if valued[0] == "{" || valued[0] == "[" then
                var grown := List(items + [if valued[0] == "{" then Dict([]) else List([])]);
                r == Close(grown, |items|, Finish(Child(grown, |items|), valued[1..]))
              else if IsKeyword(valued[0]) then r == Bad
              else if ParseBasic(valued[0]).None? then r == Thrown
              else r == Finish(List(items + [ParseBasic(valued[0]).value]), valued[1..])
  {
  }

  datatype Flag = Yes | No | Threw

  class Parser {
    var tokens: seq<string>
    var root: Value
    var stack: seq<Path>

    ghost predicate Valid()
      reads this
    {
      IsStack(root, stack)
    }

    ghost function Ends(): Parsed
      requires Valid()
      reads this
    {
      Ending(root, stack, tokens)
    }

    constructor (root: Value, tokens: seq<string>)
      ensures Valid() && this.root == root && this.tokens == tokens && stack == [[]]
    {
      this.root, this.tokens, stack := root, tokens, [[]];
    }

    /** Takes the next token off the queue. */
    method Front() returns (token: string)
      requires tokens != []
      modifies `tokens
      ensures token == old(tokens[0]) && tokens == old(tokens[1..])
    {
      token := tokens[0];
      tokens := tokens[1..];
    }

    /** Reads members into the dictionary on top of the stack until it ends, or until it
        has a container as a value: that one is then read first, from above it. */
    method ParseObject() returns (rt: Flag)
      requires Valid() && stack != [] && At(root, stack[|stack| - 1]).Dict?
      modifies this
      ensures rt.Yes? ==> Valid() && Ends() == old(Ends())
      ensures rt.Yes? ==> |tokens| < |old(tokens)|
      ensures rt.No? ==> old(Ends()) == Bad
      ensures rt.Threw? ==> old(Ends()) == Thrown
    {
      hide Finish, Outer, Close, Put, ParseBasic, Unquote, IsKeyword, Emplace, Assign, Place;
      ghost var goal := Ends();
      var top := stack[|stack| - 1];
      stack := stack[..|stack| - 1];
      ghost var all := stack + [top];
      assert all == old(stack);
      while tokens != []
        invariant all == stack + [top] && IsStack(root, all) && At(root, top).Dict?
        invariant Ending(root, all, tokens) == goal
        invariant |tokens| <= |old(tokens)|
        decreases |tokens|
      {
        ghost var before := tokens;
        var entries := At(root, top).entries;
        FinishDict(entries, tokens);
        var name := Front();
        if name == "}" {
          PopFinished(root, all, tokens);
          assert all[..|all| - 1] == stack;
          return Yes;
        }
        if name == "," {
          if tokens == [] {
            OuterFails(root, top, Bad);
            return No;
          }
          name := Front();
        }
        ghost var named := AfterComma(before);
        assert named[0] == name && tokens == named[1..];
        var key := Unquote(name);
        if key.None? {
          OuterFails(root, top, Thrown);
          return Threw;
        }
        OuterFails(root, top, Bad);
        if tokens == [] {
          return No;
        }
        if tokens[0] != ":" {
          return No;
        }
        tokens := tokens[1..];
        if tokens == [] {
          return No;
        }
        var value := Front();
        assert named[1] == ":" && named[2] == value && tokens == named[3..];
        if value == "{" {
          ghost var grown := Dict(Emplace(entries, key.value, Dict([])));
          ghost var i := Place(entries, key.value);
          PushChild(root, all, grown, i, tokens);
          root := Put(root, top, Dict(Emplace(entries, key.value, Dict([]))));
          stack := stack + [top];
          stack := stack + [top + [Place(entries, key.value)]];
          assert stack == all + [top + [i]];
          return Yes;
        }
        if value == "[" {
          ghost var grown := Dict(Emplace(entries, key.value, List([])));
          ghost var i := Place(entries, key.value);
          PushChild(root, all, grown, i, tokens);
          root := Put(root, top, Dict(Emplace(entries, key.value, List([]))));
          stack := stack + [top];
          stack := stack + [top + [Place(entries, key.value)]];
          assert stack == all + [top + [i]];
          return Yes;
        }
        if IsKeyword(value) {
          return No;
        }
        var leaf := ParseBasic(value);
        if leaf.None? {
          OuterFails(root, top, Thrown);
          return Threw;
        }
        UpdateTop(root, all, Dict(Assign(entries, key.value, leaf.value)), tokens);
        root := Put(root, top, Dict(Assign(entries, key.value, leaf.value)));
      }
      FinishDict(At(root, top).entries, []);
      OuterFails(root, top, Bad);
      return No;
    }

    /** Reads items into the list on top of the stack; running out of tokens ends it too. */
    method ParseArray() returns (rt: Flag)
      requires Valid() && stack != [] && At(root, stack[|stack| - 1]).List?
      modifies this
      ensures rt.Yes? ==> Valid() && Ends() == old(Ends())
      ensures rt.Yes? ==> |tokens| < |old(tokens)| || (tokens == old(tokens) == [] && |stack| < |old(stack)|)
      ensures rt.No? ==> old(Ends()) == Bad
      ensures rt.Threw? ==> old(Ends()) == Thrown
    {
      hide Finish, Outer, Close, Put, ParseBasic, Unquote, IsKeyword, Emplace, Assign, Place;
      ghost var goal := Ends();
      var top := stack[|stack| - 1];
      stack := stack[..|stack| - 1];
      ghost var all := stack + [top];
      assert all == old(stack);
      while tokens != []
        invariant all == stack + [top] && IsStack(root, all) && At(root, top).List?
        invariant Ending(root, all, tokens) == goal
        invariant |tokens| < |old(tokens)| || tokens == old(tokens)
        decreases |tokens|
      {
        ghost var before := tokens;
        var items := At(root, top).items;
        FinishList(items, tokens);
        var token := Front();
        if token == "]" {
          PopFinished(root, all, tokens);
          assert all[..|all| - 1] == stack;
          return Yes;
        }
        OuterFails(root, top, Bad);
        if token == "," {
          if tokens == [] {
            return No;
          }
          token := Front();
        }
        ghost var valued := AfterComma(before);
        assert valued[0] == token && tokens == valued[1..];
        if token == "{" {
          ghost var grown := List(items + [Dict([])]);
          PushChild(root, all, grown, |items|, tokens);
          root := Put(root, top, List(items + [Dict([])]));
          stack := stack + [top];
          stack := stack + [top + [|items|]];
          assert stack == all + [top + [|items|]];
          return Yes;
        }
        if token == "[" {
          ghost var grown := List(items + [List([])]);
          PushChild(root, all, grown, |items|, tokens);
          root := Put(root, top, List(items + [List([])]));
          stack := stack + [top];
          stack := stack + [top + [|items|]];
          assert stack == all + [top + [|items|]];
          return Yes;
        }
        if IsKeyword(token) {
          return No;
        }
        var leaf := ParseBasic(token);
        if leaf.None? {
          OuterFails(root, top, Thrown);
          return Threw;
        }
        UpdateTop(root, all, List(items + [leaf.value]), tokens);
        root := Put(root, top, List(items + [leaf.value]));
      }
      FinishList(At(root, top).items, []);
      PopFinished(root, all, tokens);
      assert all[..|all| - 1] == stack;
      return Yes;
    }
  }

  lemma {:induction false} OuterFails(root: Value, path: Path, r: Parsed)
    requires IsPath(root, path) && !r.Done?
    ensures Outer(root, path, r) == r
    decreases |path|
  {
    if path != [] { OuterFails(Child(root, path[0]), path[1..], r); }
  }

  lemma UpdateTop(root: Value, stack: seq<Path>, v: Value, tokens: seq<string>)
    requires IsStack(root, stack) && stack != []
    ensures var top := stack[|stack| - 1];
            && IsStack(Put(root, top, v), stack)
            && At(Put(root, top, v), top) == v
            && Ending(Put(root, top, v), stack, tokens) == Outer(root, top, Finish(v, tokens))
  {
    var top := stack[|stack| - 1];
    PutAt(root, top, v);
    OuterPut(root, top, v, Finish(v, tokens));
  }

  /** The loop over the parse stack returns what the recursive parser does, on every
      token queue, and always ends: each round takes a token or, when none is left,
      shortens the stack. */
  method Parse(tokens: seq<string>) returns (result: Result)
    requires tokens != []
    ensures result == ResultOf(ParseTokens(tokens))
  {
    var rootValue: Value;
    if tokens[0] == "{" {
      rootValue := Dict([]);
    } else if tokens[0] == "[" {
      rootValue := List([]);
    } else {
      return Returns(Null);
    }
    var parser := new Parser(rootValue, tokens[1..]);
    while parser.stack != []
      invariant parser.Valid() && parser.Ends() == ParseTokens(tokens)
      decreases |parser.tokens|, |parser.stack|
    {
      var currentValue := At(parser.root, parser.stack[|parser.stack| - 1]);
      var rt := No;
      if currentValue.Dict? {
        rt := parser.ParseObject();
      } else if currentValue.List? {
        rt := parser.ParseArray();
      } else {
        OuterFails(parser.root, parser.stack[|parser.stack| - 1], Bad);
      }
      if rt.Threw? {
        return Throws;
      }
      if rt.No? {
        return Returns(Null);
      }
    }
    return Returns(parser.root);
  }

  /** Reading a whole stream. */
  method ParseStream(input: string) returns (result: Result)
    ensures result == ParseText(input)
  {
    var ok, tokens := Tokenizer(input);
    if !ok {
      return Returns(Null);
    }
    if tokens == [] {
      return Returns(Null);
    }
    result := Parse(tokens);
  }
}
