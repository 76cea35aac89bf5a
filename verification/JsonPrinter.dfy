/** Writing a value: the loop over a frame stack and an iterator stack, and the
    recursive printer it agrees with. */
module JsonPrinter {
  import opened Common
  import opened JsonValue

  // ------------------------------------------------- recursive printing

  function Render(v: Value): string {
    match v
    case List(items) => if items == [] then "[]" else "[" + RenderItems(items, 0) + "]"
    case Dict(entries) => if entries == [] then "{}" else "{" + RenderMembers(entries, 0) + "}"
    case _ => LeafText(v)
  }

  /** The items from number `i` on, each with the comma before it. */
  function RenderItems(items: seq<Value>, i: nat): string
    requires i <= |items|
    decreases items, |items| - i
  {
    if i == |items| then ""
    else (if i > 0 then "," else "") + Render(items[i]) + RenderItems(items, i + 1)
  }

  function RenderMembers(entries: seq<Entry>, i: nat): string
    requires i <= |entries|
    decreases entries, |entries| - i
  {
    if i == |entries| then ""
    else (if i > 0 then "," else "") + "\"" + entries[i].key + "\":" + Render(entries[i].val) + RenderMembers(entries, i + 1)
  }

  /** Holds no blob, which the printer refuses. */
  predicate Printable(v: Value) {
    match v
    case Blob => false
    case List(items) => forall i | 0 <= i < |items| :: Printable(items[i])
    case Dict(entries) => forall i | 0 <= i < |entries| :: Printable(entries[i].val)
    case _ => true
  }

  // --------------------------------------------- printing with two stacks

  /** A container and how many of its elements have been written. */
  datatype Frame = Frame(value: Value, count: nat)

  /** A position in the entries of one particular dictionary. */
  datatype Iter = Iter(entries: seq<Entry>, position: nat)

  function Size(v: Value): nat
    requires IsContainer(v)
  {
    if v.List? then |v.items| else |v.entries|
  }

  /** What a container still has to write after `count` elements. */
  function Remaining(v: Value, count: nat): string
    requires IsContainer(v) && count <= Size(v)
  {
    if Size(v) == 0 then (if v.List? then "[]" else "{}")
    else if v.List? then (if count == 0 then "[" else "") + RenderItems(v.items, count) + "]"
    else (if count == 0 then "{" else "") + RenderMembers(v.entries, count) + "}"
  }

  predicate Fits(f: Frame) {
    IsContainer(f.value) && f.count <= Size(f.value)
  }

  predicate PrintableRest(f: Frame)
    requires Fits(f)
  {
    if f.value.List? then forall i | f.count <= i < |f.value.items| :: Printable(f.value.items[i])
    else forall i | f.count <= i < |f.value.entries| :: Printable(f.value.entries[i].val)
  }

  ghost predicate AllFit(stack: seq<Frame>) { forall i | 0 <= i < |stack| :: Fits(stack[i]) }

  /** What is still to be written, from the innermost frame outwards. */
  ghost function Pending(stack: seq<Frame>): string
    requires AllFit(stack)
  {
    if stack == [] then "" else Remaining(stack[|stack| - 1].value, stack[|stack| - 1].count) + Pending(stack[..|stack| - 1])
  }

  /** The iterator stack holds one iterator for each dictionary frame, in frame order, at
      the next entry that frame has to write. */
  ghost function IterStackOf(stack: seq<Frame>): seq<Iter>
    requires AllFit(stack)
  {
    if stack == [] then [] else
    var top := stack[|stack| - 1];
    IterStackOf(stack[..|stack| - 1]) + if top.value.Dict? then [Iter(top.value.entries, top.count)] else []
  }

  ghost predicate AllPrintable(stack: seq<Frame>)
    requires AllFit(stack)
  {
    forall i | 0 <= i < |stack| :: PrintableRest(stack[i])
  }

  lemma PushFrame(stack: seq<Frame>, f: Frame)
    requires AllFit(stack) && Fits(f)
    ensures AllFit(stack + [f])
    ensures Pending(stack + [f]) == Remaining(f.value, f.count) + Pending(stack)
    ensures IterStackOf(stack + [f]) ==
            IterStackOf(stack) + if f.value.Dict? then [Iter(f.value.entries, f.count)] else []
    ensures AllPrintable(stack + [f]) <==> AllPrintable(stack) && PrintableRest(f)
  {
    assert (stack + [f])[..|stack|] == stack;
    if AllPrintable(stack + [f]) {
      assert PrintableRest((stack + [f])[|stack|]);
      forall i | 0 <= i < |stack| ensures PrintableRest(stack[i]) { assert PrintableRest((stack + [f])[i]); }
    }
  }

  function Element(v: Value, i: nat): Value
    requires IsContainer(v) && i < Size(v)
  {
    if v.List? then v.items[i] else v.entries[i].val
  }

  /** What comes before element `i`: a brace or a comma, and the key in a dictionary. */
  function Lead(v: Value, i: nat): string
    requires IsContainer(v) && i < Size(v)
  {
    (if i > 0 then "," else if v.List? then "[" else "{")
    + if v.List? then "" else "\"" + v.entries[i].key + "\":"
  }

  function Closer(v: Value): string { if v.List? then "]" else "}" }

  lemma Regroup(a: string, b: string, c: string, d: string)
    ensures a + b + c + d == a + (b + (c + d))
    ensures a + ((b + c) + d) == a + b + (c + d)
  {
  }

  lemma NextItem(items: seq<Value>, i: nat)
    requires i < |items|
    ensures Remaining(List(items), i) == Lead(List(items), i) + (Render(items[i]) + Remaining(List(items), i + 1))
  {
    Regroup(Lead(List(items), i), Render(items[i]), RenderItems(items, i + 1), "]");
  }

  lemma NextMember(entries: seq<Entry>, i: nat)
    requires i < |entries|
    ensures Remaining(Dict(entries), i) ==
            Lead(Dict(entries), i) + (Render(entries[i].val) + Remaining(Dict(entries), i + 1))
  {
    hide Render, RenderMembers, Lead;
    MemberText(entries, i);
    var key, text, more := "\"" + entries[i].key + "\":", Render(entries[i].val), RenderMembers(entries, i + 1);
    LeadText(entries, i);
    if i == 0 {
      RegroupFirst("{", key, text, more);
      Regroup("{" + key, text, more, "}");
    } else {
      Regroup(Lead(Dict(entries), i), text, more, "}");
      assert "" + RenderMembers(entries, i) == RenderMembers(entries, i);
    }
    assert "" + more == more;
  }

  lemma LeadText(entries: seq<Entry>, i: nat)
    requires i < |entries|
    ensures i == 0 ==> Lead(Dict(entries), i) == "{" + ("\"" + entries[i].key + "\":")
  {
  }

  lemma RegroupFirst(a: string, b: string, c: string, d: string)
    ensures a + (b + c + d) == a + b + c + d
  {
  }

  lemma MemberText(entries: seq<Entry>, i: nat)
    requires i < |entries|
    ensures RenderMembers(entries, i) ==
            (if i > 0 then Lead(Dict(entries), i) else "\"" + entries[i].key + "\":")
            + Render(entries[i].val) + RenderMembers(entries, i + 1)
  {
    hide Render;
    RegroupFirst("", "\"", entries[i].key, "\":");
    if i > 0 {
      RegroupFirst(",", "\"", entries[i].key, "\":");
    } else {
      assert "" + "\"" == "\"";
    }
  }

  /** One element further into a frame. */
  lemma NextElement(v: Value, i: nat)
    requires Fits(Frame(v, i)) && i < Size(v)
    ensures Fits(Frame(v, i + 1))
    ensures Remaining(v, i) == Lead(v, i) + (Render(Element(v, i)) + Remaining(v, i + 1))
    ensures PrintableRest(Frame(v, i)) <==> Printable(Element(v, i)) && PrintableRest(Frame(v, i + 1))
  {
    if v.List? { NextItem(v.items, i); } else { NextMember(v.entries, i); }
  }

  /** A frame with nothing left but its closing bracket, or with nothing at all. */
  lemma LastElement(v: Value)
    requires IsContainer(v) && Fits(Frame(v, Size(v)))
    ensures Remaining(v, Size(v)) ==
            if Size(v) > 0 then Closer(v) else if v.List? then "[]" else "{}"
    ensures PrintableRest(Frame(v, Size(v)))
  {
  }

  /** A container that has not been started is a frame of its own. */
  lemma WholeFrame(v: Value)
    requires IsContainer(v)
    ensures Fits(Frame(v, 0)) && Remaining(v, 0) == Render(v) && (PrintableRest(Frame(v, 0)) <==> Printable(v))
  {
  }

  /** The state in the middle of an element loop: the frame is off the stack. */
  ghost predicate Between(out: string, v: Value, count: nat, below: seq<Frame>, goal: string, printable: bool)
    requires AllFit(below)
  {
    && Fits(Frame(v, count))
    && out + (Remaining(v, count) + Pending(below)) == goal
    && (printable <==> AllPrintable(below) && PrintableRest(Frame(v, count)))
  }

  lemma LeafWritten(out: string, v: Value, count: nat, below: seq<Frame>, goal: string, printable: bool)
    requires AllFit(below) && Between(out, v, count, below, goal, printable) && count < Size(v)
    requires !IsContainer(Element(v, count))
    ensures Printable(Element(v, count)) ==>
              Between(out + Lead(v, count) + LeafText(Element(v, count)), v, count + 1, below, goal, printable)
    ensures !Printable(Element(v, count)) ==> !printable
  {
    NextElement(v, count);
    hide Remaining, Pending, Lead, AllPrintable, PrintableRest;
    Regroup5(out, Lead(v, count), LeafText(Element(v, count)), Remaining(v, count + 1), Pending(below));
  }

  lemma Regroup5(a: string, b: string, c: string, d: string, e: string)
    ensures a + ((b + (c + d)) + e) == a + b + (c + (d + e))
    ensures a + ((b + (c + d)) + e) == a + b + c + (d + e)
  {
  }

  lemma ContainerMet(out: string, v: Value, count: nat, below: seq<Frame>, goal: string, printable: bool)
    requires AllFit(below) && Between(out, v, count, below, goal, printable) && count < Size(v)
    requires IsContainer(Element(v, count))
    ensures var stack := below + [Frame(v, count + 1)] + [Frame(Element(v, count), 0)];
            && AllFit(stack)
            && out + Lead(v, count) + Pending(stack) == goal
            && (printable <==> AllPrintable(stack))
            && IterStackOf(stack) == IterStackOf(below)
                 + (if v.Dict? then [Iter(v.entries, count + 1)] else [])
                 + if Element(v, count).Dict? then [Iter(Element(v, count).entries, 0)] else []
  {
    NextElement(v, count);
    hide Remaining, Render, Pending, Lead, AllPrintable, PrintableRest, Printable, IterStackOf;
    WholeFrame(Element(v, count));
    PushFrame(below, Frame(v, count + 1));
    PushFrame(below + [Frame(v, count + 1)], Frame(Element(v, count), 0));
    Regroup5(out, Lead(v, count), Render(Element(v, count)), Remaining(v, count + 1), Pending(below));
  }

  lemma AllWritten(out: string, v: Value, below: seq<Frame>, goal: string, printable: bool)
    requires AllFit(below) && IsContainer(v) && Between(out, v, Size(v), below, goal, printable)
    ensures out + (if Size(v) > 0 then Closer(v) else if v.List? then "[]" else "{}") + Pending(below) == goal
    ensures printable <==> AllPrintable(below)
  {
    LastElement(v);
  }

  lemma PopFrame(out: string, stack: seq<Frame>)
    requires AllFit(stack) && stack != []
    ensures var below, f := stack[..|stack| - 1], stack[|stack| - 1];
            && AllFit(below)
            && Between(out, f.value, f.count, below, out + Pending(stack), AllPrintable(stack))
            && IterStackOf(stack) == IterStackOf(below) + if f.value.Dict? then [Iter(f.value.entries, f.count)] else []
  {
    var below, f := stack[..|stack| - 1], stack[|stack| - 1];
    assert stack == below + [f];
    PushFrame(below, f);
  }

  class Printer {
    var out: string
    var stack: seq<Frame>
    var iters: seq<Iter>

    ghost predicate Valid()
      reads this
    {
      AllFit(stack) && iters == IterStackOf(stack)
    }

    /** All that will have been written in the end. */
    ghost function Total(): string
      requires Valid()
      reads this
    {
      out + Pending(stack)
    }

    constructor ()
      ensures out == "" && stack == [] && iters == []
    {
      out, stack, iters := "", [], [];
    }

    method Write(text: string)
      modifies `out
      ensures out == old(out) + text
    {
      out := out + text;
    }

    /** Writes the dictionary on top of the stack up to its end, or up to its next
        container, which is then put on top. */
    method StreamifyObject() returns (rt: bool)
      requires Valid() && stack != [] && stack[|stack| - 1].value.Dict?
      modifies this
      ensures rt ==> Valid() && Total() == old(Total()) && |out| > |old(out)|
      ensures rt ==> (AllPrintable(stack) <==> old(AllPrintable(stack)))
      ensures !rt ==> !old(AllPrintable(stack))
    {
      hide Between, Pending, IterStackOf, AllPrintable, Printable, LeafText;
      ghost var goal, printable := Total(), AllPrintable(stack);
      ghost var below := stack[..|stack| - 1];
      PopFrame(out, stack);
      var it := iters[|iters| - 1];
      iters := iters[..|iters| - 1];
      var top, count := stack[|stack| - 1].value, stack[|stack| - 1].count;
      stack := stack[..|stack| - 1];
      var entries := top.entries;
      if entries == [] {
        AllWritten(out, top, below, goal, printable);
        Write("{}");
        return true;
      }
      if count == |entries| {
        AllWritten(out, top, below, goal, printable);
        Write("}");
        return true;
      }
      while it.position != |entries|
        invariant stack == below && iters == IterStackOf(below)
        invariant it == Iter(entries, count) && count < |entries|
        invariant Between(out, top, count, below, goal, printable)
        invariant |out| >= |old(out)|
        decreases |entries| - count
      {
        ghost var before, i := out, count;
        var name, value := entries[it.position].key, entries[it.position].val;
        if count == 0 {
          Write("{");
        }
        if count > 0 && count < |entries| {
          Write(",");
        }
        it := Iter(it.entries, it.position + 1);
        count := count + 1;
        Write("\"");
        Write(name);
        Write("\":");
        assert out == before + Lead(top, i);
        if value.Dict? {
          ContainerMet(before, top, i, below, goal, printable);
          stack := stack + [Frame(top, count)];
          stack := stack + [Frame(value, 0)];
          iters := iters + [it];
          iters := iters + [Iter(value.entries, 0)];
          return true;
        }
        if value.List? {
          ContainerMet(before, top, i, below, goal, printable);
          stack := stack + [Frame(top, count)];
          stack := stack + [Frame(value, 0)];
          iters := iters + [it];
          return true;
        }
        LeafWritten(before, top, i, below, goal, printable);
        var ok := StreamifyBasic(value);
        if !ok {
          return false;
        }
        if count == |entries| {
          AllWritten(out, top, below, goal, printable);
          Write("}");
          return true;
        }
      }
      return true;
    }

    /** Writes the list on top of the stack in the same way; it has no iterator. */
    method StreamifyArray() returns (rt: bool)
      requires Valid() && stack != [] && stack[|stack| - 1].value.List?
      modifies this
      ensures rt ==> Valid() && Total() == old(Total()) && |out| > |old(out)|
      ensures rt ==> (AllPrintable(stack) <==> old(AllPrintable(stack)))
      ensures !rt ==> !old(AllPrintable(stack))
    {
      hide Between, Pending, IterStackOf, AllPrintable, Printable, LeafText;
      ghost var goal, printable := Total(), AllPrintable(stack);
      ghost var below := stack[..|stack| - 1];
      PopFrame(out, stack);
      var top, count := stack[|stack| - 1].value, stack[|stack| - 1].count;
      stack := stack[..|stack| - 1];
      var items := top.items;
      if items == [] {
        AllWritten(out, top, below, goal, printable);
        Write("[]");
        return true;
      }
      if count == |items| {
        AllWritten(out, top, below, goal, printable);
        Write("]");
        return true;
      }
      while count < |items|
        invariant stack == below && iters == IterStackOf(below)
        invariant count < |items|
        invariant Between(out, top, count, below, goal, printable)
        invariant |out| >= |old(out)|
      {
        ghost var before, i := out, count;
        var value := items[count];
        if count == 0 {
          Write("[");
        }
        if count > 0 && count < |items| {
          Write(",");
        }
        count := count + 1;
        assert out == before + Lead(top, i);
        if value.Dict? {
          ContainerMet(before, top, i, below, goal, printable);
          stack := stack + [Frame(top, count)];
          stack := stack + [Frame(value, 0)];
          iters := iters + [Iter(value.entries, 0)];
          return true;
        }
        if value.List? {
          ContainerMet(before, top, i, below, goal, printable);
          stack := stack + [Frame(top, count)];
          stack := stack + [Frame(value, 0)];
          return true;
        }
        LeafWritten(before, top, i, below, goal, printable);
        var ok := StreamifyBasic(value);
        if !ok {
          return false;
        }
        if count == |items| {
          AllWritten(out, top, below, goal, printable);
          Write("]");
          return true;
        }
      }
      return true;
    }

    /** Writes a leaf; a blob is refused. */
    method StreamifyBasic(value: Value) returns (rt: bool)
      requires !IsContainer(value)
      modifies `out
      ensures rt <==> Printable(value)
      ensures out == if rt then old(out) + LeafText(value) else old(out)
    {
      if value.Null? {
        Write("null");
      } else if value.Bool? {
        if value.b {
          Write("true");
        } else {
          Write("false");
        }
      } else if value.Double? || value.Int? || value.Str? {
        Write(LeafText(value));
      } else {
        return false;
      }
      return true;
    }
  }

  /** The two stacks write exactly what the recursive printer writes, and succeed exactly
      on lists and dictionaries that hold no blob.  The loop ends because every round
      writes something. */
  method Streamify(value: Value) returns (rt: bool, out: string)
    ensures rt <==> IsContainer(value) && Printable(value)
    ensures rt ==> out == Render(value)
  {
    var printer := new Printer();
    printer.stack := [Frame(value, 0)];
    if value.Dict? {
      printer.iters := [Iter(value.entries, 0)];
    }
    if !IsContainer(value) {
      // only the root can be met on the stack without being a container
      return false, printer.out;
    }
    WholeFrame(value);
    PushFrame([], Frame(value, 0));
    assert [] + [Frame(value, 0)] == printer.stack;
    while printer.stack != []
      invariant printer.Valid() && printer.Total() == Render(value)
      invariant AllPrintable(printer.stack) <==> Printable(value)
      decreases |Render(value)| - |printer.out|
    {
      hide Pending, IterStackOf, AllPrintable, Printable, Render, Remaining;
      var top := printer.stack[|printer.stack| - 1].value;
      if top.Dict? {
        rt := printer.StreamifyObject();
      } else {
        rt := printer.StreamifyArray();
      }
      if !rt {
        return false, printer.out;
      }
    }
    return true, printer.out;
  }
}
