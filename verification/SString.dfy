/** The string class on top of the encoding: building, reading, reversing and cutting. */
module SString {
  import opened Common
  import opened Utf8Char
  import opened Utf8String

  const BLOCK_SIZE := 16

  /** Writes one character in place. */
  method InsertUnicodeChar2Utf8String(destination: array<Byte>, at: nat, code: bv32, n: int) returns (ok: bool)
    requires 1 <= n <= 4 ==> at + n <= destination.Length
    modifies destination
    ensures ok <==> 1 <= n <= 4
    ensures |Inserted(code, n)| == if ok then n else 0
    ensures destination[..] == if ok then old(destination[..at]) + Inserted(code, n) + old(destination[at + n..]) else old(destination[..])
  {
    hide Only, First2, First3, First4, Next0, Next6, Next12;
    if 1 == n {
      destination[at] := Only(code);
    } else if 2 == n {
      destination[at] := First2(code);
      destination[at + 1] := Next0(code);
    } else if 3 == n {
      destination[at] := First3(code);
      destination[at + 1] := Next6(code);
      destination[at + 2] := Next0(code);
    } else if 4 == n {
      destination[at] := First4(code);
      destination[at + 1] := Next12(code);
      destination[at + 2] := Next6(code);
      destination[at + 3] := Next0(code);
    } else {
      return false;
    }
    return true;
  }

  /** The characters from the last to the first. */
  function Backwards(chars: seq<bv32>): (r: seq<bv32>)
    ensures |r| == |chars|
  {
    if chars == [] then [] else [chars[|chars| - 1]] + Backwards(chars[..|chars| - 1])
  }

  lemma {:induction false} BackwardsConcat(a: seq<bv32>, b: seq<bv32>)
    ensures Backwards(a + b) == Backwards(b) + Backwards(a)
  {
    if b == [] {
      assert a + b == a && Backwards(b) + Backwards(a) == Backwards(a);
    } else {
      assert (a + b)[..|a + b| - 1] == a + b[..|b| - 1];
      BackwardsConcat(a, b[..|b| - 1]);
    }
  }

  /** Reversing is undone by reversing. */
  lemma {:induction false} BackwardsTwice(chars: seq<bv32>)
    ensures Backwards(Backwards(chars)) == chars
  {
    if chars != [] {
      var before, last := chars[..|chars| - 1], chars[|chars| - 1];
      BackwardsConcat([last], Backwards(before));
      BackwardsTwice(before);
      assert [last][..0] == [];
    }
  }

  lemma BackwardsLast(chars: seq<bv32>, c: bv32)
    ensures Backwards(chars + [c]) == [c] + Backwards(chars)
  {
    assert (chars + [c])[..|chars|] == chars;
  }

  class SString {
    // no memory in a string made with nothing in it
    var data: array?<Byte>
    var size: nat
    var capacity: nat

    ghost predicate Valid()
      reads this, data
    {
      && (data == null ==> size == 0 && capacity == 0)
      && (data != null ==> data.Length == capacity > size && data[size] == 0)
    }

    ghost function Bytes(): seq<Byte>
      requires Valid()
      reads this, data
    {
      if data == null then [] else data[..size]
    }

    constructor ()
      ensures Valid() && Bytes() == []
    {
      data, size, capacity := null, 0, 0;
    }

    /** Memory for so many bytes, not yet written. */
    constructor OfSize(n: nat)
      ensures data != null && fresh(data) && size == n < data.Length == capacity == (n / 16 + 1) * 16
    {
      size := n;
      capacity := (n / BLOCK_SIZE + 1) * BLOCK_SIZE;
      data := new Byte[(n / BLOCK_SIZE + 1) * BLOCK_SIZE];
    }

    /** A string of these bytes. */
    static method Copied(bytes: seq<Byte>) returns (s: SString)
      ensures fresh(s) && s.Valid() && s.data != null && fresh(s.data) && s.Bytes() == bytes
    {
      s := new SString.OfSize(|bytes|);
      MemCpy(s.data, 0, bytes);
      s.data[s.size] := 0;
    }

    static method FromSChars(chars: seq<bv32>) returns (s: SString)
      requires Encodable(chars)
      ensures fresh(s) && s.Valid() && s.data != null && s.Bytes() == EncodeAll(chars)
    {
      hide EncodeAll, Encoded, Inserted, Utf8SizeFromUnicodeChar;
      NoBytes(chars);
      var size: nat := 0;
      for k := 0 to |chars|
        invariant size == |EncodeAll(chars[..k])|
      {
        CharAt(chars, k);
        size := size + Utf8SizeFromUnicodeChar(chars[k]);
      }
      assert chars[..|chars|] == chars;
      s := new SString.OfSize(size);
      var index: nat := 0;
      for k := 0 to |chars|
        invariant s.data != null && fresh(s.data) && s.size == size < s.data.Length == s.capacity
        invariant index == |EncodeAll(chars[..k])| <= size && s.data[..index] == EncodeAll(chars[..k])
      {
        CharAt(chars, k);
        var n := Utf8SizeFromUnicodeChar(chars[k]);
        SizeRange(chars[k]);
        EncodedIs(chars[k]);
        ghost var before := s.data[..];
        var ok := InsertUnicodeChar2Utf8String(s.data, index, chars[k], n);
        assert s.data[..index + n] == before[..index] + Encoded(chars[k]);
        index := index + n;
      }
      s.data[s.size] := 0;
      assert s.data[..size] == EncodeAll(chars);
    }

    /** The characters, as far as they can be read. */
    method ToChars() returns (chars: seq<bv32>)
      requires Valid() && data != null
      ensures chars == CharsOf(Bytes(), 0)
    {
      hide SizeFromUtf8Char, UnicodeCharFromUtf8Char, CharsOf;
      ghost var b := Bytes();
      chars := [];
      var i: nat := 0;
      while i < size
        invariant chars + CharsOf(b, i) == CharsOf(b, 0)
        decreases size - i
      {
        OneChar(data[..], b, i);
        if 0 == data[i] { return; }
        var n := SizeFromUtf8Char(data[i]);
        if -1 == n { return; }
        if i + n > size { return; }
        chars := chars + [UnicodeCharFromUtf8Char(n, data[i..])];
        i := i + n;
      }
      NoMore(b, i);
    }

    method Len() returns (len: nat)
      requires Valid()
      ensures len == |CharsOf(Bytes(), 0)|
    {
      hide SizeFromUtf8Char, UnicodeCharFromUtf8Char, CharsOf;
      ghost var b := Bytes();
      len := 0;
      var i: nat := 0;
      while i < size
        invariant len + |CharsOf(b, i)| == |CharsOf(b, 0)|
        decreases size - i
      {
        OneChar(data[..], b, i);
        if 0 == data[i] { return; }
        var n := SizeFromUtf8Char(data[i]);
        if -1 == n { return; }
        if i + n > size { return; }
        i := i + n;
        len := len + 1;
      }
      NoMore(b, i);
    }

    /** The character at an index, or the null character where there is none. */
    method At(index: nat) returns (c: bv32)
      requires Valid()
      ensures var chars := CharsOf(Bytes(), 0); c == if index < |chars| then chars[index] else 0
    {
      hide SizeFromUtf8Char, UnicodeCharFromUtf8Char, CharsOf;
      ghost var b := Bytes();
      ghost var all := CharsOf(b, 0);
      var wanted := index + 1;
      var n := 0;
      var i: nat := 0;
      while i < size
        invariant 0 <= n < wanted && n <= |all| && all[n..] == CharsOf(b, i)
        decreases size - i
      {
        OneChar(data[..], b, i);
        if 0 == data[i] { return 0; }
        var bytes := SizeFromUtf8Char(data[i]);
        if -1 == bytes { return 0; }
        if i + bytes > size { return 0; }
        n := n + 1;
        assert all[n - 1] == CharsOf(b, i)[0];
        if wanted == n {
          return UnicodeCharFromUtf8Char(bytes, data[i..]);
        }
        i := i + bytes;
      }
      NoMore(b, i);
      return 0;
    }

    /** The bytes of the characters in the other order. */
    method Reverse(ghost chars: seq<bv32>) returns (s: SString)
      requires Valid() && Encodable(chars) && Bytes() == EncodeAll(chars)
      ensures fresh(s) && s.Valid() && s.Bytes() == EncodeAll(Backwards(chars))
    {
      hide EncodeAll, Encoded, SizeFromUtf8Char, Backwards, Utf8SizeFromUnicodeChar, Encodable;
      NoBytes(chars);
      s := new SString.OfSize(size);
      var out := s.data;
      var index: nat := size;
      out[index] := 0;
      var i: nat := 0;
      ghost var k := 0;
      while i < size
        modifies out
        invariant size < out.Length && out[size] == 0
        invariant k <= |chars| && i == |EncodeAll(chars[..k])| && index == size - i && i <= size
        invariant out[index..size] == EncodeAll(Backwards(chars[..k]))
        decreases |chars| - k
      {
        Progress(chars, k);
        Standing(data[..size], chars, k);
        var n := SizeFromUtf8Char(data[i]);
        index := index - n;
        ghost var before := out[..];
        MemCpy(out, index, data[i..i + n]);
        ReverseMore(data[..], size, chars, k, index, i, n, before, out[..]);
        i := i + n;
        k := k + 1;
      }
      Progress(chars, k);
      assert out[..size] == out[index..size];
    }

    /** Where the character at an index starts; nowhere if a zero byte comes first. */
    method PointerTo(begin: nat, ghost chars: seq<bv32>) returns (p: int)
      requires Valid() && data != null && Encodable(chars) && Bytes() == EncodeAll(chars)
      ensures p == if begin < |UpToZero(chars)| then |EncodeAll(chars[..begin])| else -1
    {
      hide EncodeAll, Encoded, SizeFromUtf8Char, UpToZero, Utf8SizeFromUnicodeChar, Encodable;
      NoBytes(chars);
      WholeUpToZero(chars);
      p := 0;
      var i := -1;
      while true
        invariant -1 <= i < begin && i + 1 <= |UpToZero(chars)| && p == |EncodeAll(chars[..i + 1])| <= size
        decreases begin - i
      {
        ghost var k := i + 1;
        ZeroByteAt(data[..], size, chars, k);
        if 0 == data[p] {
          return -1;
        }
        i := i + 1;
        if i == begin {
          break;
        } else {
          CharAt(chars, k);
          Standing(data[..size], chars, k);
          var n := SizeFromUtf8Char(data[p]);
          p := p + n;
        }
      }
    }

    method SubstringFrom(begin: nat, ghost chars: seq<bv32>) returns (s: SString)
      requires Valid() && data != null && Encodable(chars) && Bytes() == EncodeAll(chars)
      ensures fresh(s) && s.Valid()
      ensures s.Bytes() == if begin < |UpToZero(chars)| then EncodeAll(chars[begin..]) else []
    {
      hide EncodeAll, Encoded, UpToZero, Encodable;
      WholeUpToZero(chars);
      var p := PointerTo(begin, chars);
      if p == -1 {
        s := new SString();
        return;
      }
      assert chars == chars[..begin] + chars[begin..];
      EncodeConcat(chars[..begin], chars[begin..]);
      s := Copied(data[p..size]);
    }

    method Substring(begin: nat, len: nat, ghost chars: seq<bv32>) returns (s: SString)
      requires Valid() && data != null && Encodable(chars) && Bytes() == EncodeAll(chars)
      ensures fresh(s) && s.Valid()
      ensures var read := UpToZero(chars);
              s.Bytes() ==
                if begin >= |read| then []
                else EncodeAll(if begin + len <= |read| then read[begin..begin + len] else read[begin..])
    {
      hide EncodeAll, Encoded, UpToZero, SizeFromUtf8Char, Utf8SizeFromUnicodeChar, Encodable;
      WholeUpToZero(chars);
      ghost var read := UpToZero(chars);
      var start := PointerTo(begin, chars);
      if start == -1 {
        s := new SString();
        return;
      }
      var count := 0;
      var newSize: nat := 0;
      var p := start;
      assert chars[..begin + count] == chars[..begin];
      ZeroByteAt(data[..], size, chars, begin);
      while true
        invariant count <= len && begin + count <= |read|
        invariant p == |EncodeAll(chars[..begin + count])| == start + newSize <= size
        decreases len - count
      {
        ghost var k := begin + count;
        ZeroByteAt(data[..], size, chars, k);
        if 0 == data[p] {
          break;
        } else if count == len {
          break;
        } else {
          CharAt(chars, k);
          Standing(data[..size], chars, k);
          var n := SizeFromUtf8Char(data[p]);
          newSize := newSize + n;
          p := p + n;
          count := count + 1;
        }
      }
      Cut(data[..size], chars, begin, count);
      Within(data[..], size, start, start + newSize);
      if begin + len > |read| {
        assert read[begin..begin + count] == read[begin..];
      }
      s := Copied(data[start..start + newSize]);
    }
  }

  lemma NoBytes(chars: seq<bv32>)
    ensures EncodeAll(chars[..0]) == [] && EncodeAll(Backwards(chars[..0])) == []
  {
  }

  lemma SizeRange(c: bv32)
    requires c <= 0x7ffff
    ensures 1 <= Utf8SizeFromUnicodeChar(c) <= 4
  {
  }

  lemma SizeOptions(b: Byte)
    ensures SizeFromUtf8Char(b) == -1 || 1 <= SizeFromUtf8Char(b) <= 4
  {
  }

  lemma EncodedIs(c: bv32)
    ensures Encoded(c) == Inserted(c, Utf8SizeFromUnicodeChar(c))
  {
  }

  /** What the reading functions make of the next byte. */
  lemma OneChar(data: seq<Byte>, b: seq<Byte>, i: nat)
    requires i < |b| && b <= data
    ensures data[i] == b[i] && var n := SizeFromUtf8Char(b[i]);
            && (n == -1 || 1 <= n <= 4)
            && if b[i] == 0 || n == -1 || i + n > |b| then CharsOf(b, i) == []
               else CharsOf(b, i) == [UnicodeCharFromUtf8Char(n, data[i..])] + CharsOf(b, i + n)
  {
    hide SizeFromUtf8Char, UnicodeCharFromUtf8Char;
    var n := SizeFromUtf8Char(b[i]);
    SizeOptions(b[i]);
    if n != -1 && i + n <= |b| {
      SameChar(data, b, i, n);
    }
  }

  lemma NoMore(b: seq<Byte>, i: nat)
    requires i >= |b|
    ensures CharsOf(b, i) == []
  {
  }

  /** A character is read from its own bytes only. */
  lemma SameChar(data: seq<Byte>, b: seq<Byte>, i: nat, n: nat)
    requires i + n <= |b| && b <= data && 1 <= n
    ensures UnicodeCharFromUtf8Char(n, data[i..]) == UnicodeCharFromUtf8Char(n, b[i..])
  {
    var e := b[i..i + n];
    assert e <= b[i..] && e <= data[i..];
    DecodesPrefix(e, b[i..]);
    DecodesPrefix(e, data[i..]);
  }

  /** The bytes of character `k` stand where the characters before it end. */
  lemma Standing(b: seq<Byte>, chars: seq<bv32>, k: nat)
    requires Encodable(chars) && b == EncodeAll(chars) && k < |chars|
    ensures var i, n := |EncodeAll(chars[..k])|, |Encoded(chars[k])|;
            && n >= 1 && i + n <= |b| && b[i..i + n] == Encoded(chars[k])
            && SizeFromUtf8Char(b[i]) == n && (b[i] == 0 <==> chars[k] == 0)
            && i + n == |EncodeAll(chars[..k + 1])|
  {
    hide EncodeAll, Encoded, SizeFromUtf8Char;
    CharAt(chars, k);
    var i, n := |EncodeAll(chars[..k])|, |Encoded(chars[k])|;
    assert b[i..i + n] == Encoded(chars[k]);
    assert b[i] == b[i..i + n][0];
  }

  /** One more character in front of those reversed so far. */
  lemma ReverseMore(data: seq<Byte>, size: nat, chars: seq<bv32>, k: nat, index: nat, i: nat, n: nat, before: seq<Byte>, after: seq<Byte>)
    requires Encodable(chars) && size <= |data| && data[..size] == EncodeAll(chars) && k < |chars| && size < |before|
    requires i == |EncodeAll(chars[..k])| && n == |Encoded(chars[k])| && index + n + i == size
    requires before[index + n..size] == EncodeAll(Backwards(chars[..k]))
    requires after == before[..index] + data[i..i + n] + before[index + n..]
    ensures |after| == |before| && after[size] == before[size]
    ensures after[index..size] == EncodeAll(Backwards(chars[..k + 1]))
  {
    hide EncodeAll, Encoded, Backwards, SizeFromUtf8Char, Encodable;
    Standing(data[..size], chars, k);
    Within(data, size, i, i + n);
    assert after[index..size] == Encoded(chars[k]) + before[index + n..size];
    assert chars[..k + 1] == chars[..k] + [chars[k]];
    BackwardsLast(chars[..k], chars[k]);
    EncodeConcat([chars[k]], Backwards(chars[..k]));
    EncodeOne(chars[k]);
  }

  /** There are bytes left exactly while there are characters left. */
  lemma Progress(chars: seq<bv32>, k: nat)
    requires Encodable(chars) && k <= |chars|
    ensures |EncodeAll(chars[..k])| < |EncodeAll(chars)| <==> k < |chars|
    ensures k == |chars| ==> chars[..k] == chars
  {
    hide EncodeAll, Encoded;
    if k < |chars| {
      CharAt(chars, k);
    } else {
      assert chars[..k] == chars;
    }
  }

  lemma Within(data: seq<Byte>, size: nat, i: nat, j: nat)
    requires i <= j <= size <= |data|
    ensures data[..size][i..j] == data[i..j]
  {
  }

  /** Within what can be read, a zero byte stands exactly at its end. */
  lemma ZeroByteAt(data: seq<Byte>, size: nat, chars: seq<bv32>, k: nat)
    requires Encodable(chars) && size < |data| && data[..size] == EncodeAll(chars) && data[size] == 0 && k <= |UpToZero(chars)|
    ensures k <= |chars| && |EncodeAll(chars[..k])| <= size
    ensures data[|EncodeAll(chars[..k])|] == 0 <==> k == |UpToZero(chars)|
    ensures k < |UpToZero(chars)| ==> k < |chars|
  {
    hide EncodeAll, Encoded, SizeFromUtf8Char, UpToZero;
    WholeUpToZero(chars);
    if k == |chars| {
      assert chars[..k] == chars;
    } else {
      Standing(data[..size], chars, k);
      if k < |UpToZero(chars)| {
        assert chars[k] == UpToZero(chars)[k];
        assert chars[k] in UpToZero(chars);
      }
    }
  }

  lemma Cut(b: seq<Byte>, chars: seq<bv32>, begin: nat, count: nat)
    requires Encodable(chars) && b == EncodeAll(chars) && begin + count <= |UpToZero(chars)|
    ensures UpToZero(chars) <= chars
    ensures var i, j := |EncodeAll(chars[..begin])|, |EncodeAll(chars[..begin + count])|;
            i <= j <= |b| && b[i..j] == EncodeAll(UpToZero(chars)[begin..begin + count])
  {
    hide EncodeAll, UpToZero;
    WholeUpToZero(chars);
    var middle := chars[begin..begin + count];
    assert middle == UpToZero(chars)[begin..begin + count];
    assert chars[..begin + count] == chars[..begin] + middle;
    EncodeConcat(chars[..begin], middle);
    assert chars == chars[..begin + count] + chars[begin + count..];
    EncodeConcat(chars[..begin + count], chars[begin + count..]);
  }
}
