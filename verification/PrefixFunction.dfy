/** The table of longest borders that string searching builds on. */
module PrefixFunction {

  /** The first `k` characters of the first `n` are also the last `k`, and not all of them. */
  ghost predicate IsBorder(s: string, n: nat, k: nat)
    requires n <= |s|
  {
    k < n && s[..k] == s[n - k..n]
  }

  ghost predicate IsLongestBorder(s: string, n: nat, k: nat)
    requires n <= |s|
  {
    IsBorder(s, n, k) && NoneLonger(s, n, k)
  }

  /** What entry `i` of the table should be. */
  ghost predicate Entry(s: string, k: nat, i: nat)
    requires i < |s|
  {
    IsLongestBorder(s, i + 1, k)
  }

  ghost predicate NoneLonger(s: string, n: nat, k: nat)
    requires n <= |s|
  {
    forall j: nat | IsBorder(s, n, j) :: j <= k
  }

  lemma BorderGrows(s: string, n: nat, k: nat)
    requires n < |s| && IsBorder(s, n, k) && s[k] == s[n]
    ensures IsBorder(s, n + 1, k + 1)
  {
    assert s[..k + 1] == s[..k] + [s[k]];
    assert s[n - k..n + 1] == s[n - k..n] + [s[n]];
  }

  lemma BorderShrinks(s: string, n: nat, k: nat)
    requires 0 < n < |s| && IsBorder(s, n + 1, k + 1)
    ensures IsBorder(s, n, k) && s[k] == s[n]
  {
    var longer := s[..k + 1];
    assert longer == s[n - k..n + 1];
    assert longer[..k] == s[..k] && longer[..k] == s[n - k..n];
    assert longer[k] == s[k] && longer[k] == s[n];
  }

  /** A shorter border is a border of the longer one. */
  lemma BorderWithin(s: string, n: nat, k: nat, j: nat)
    requires n <= |s| && IsBorder(s, n, k) && IsBorder(s, n, j) && j < k
    ensures IsBorder(s, k, j)
  {
    assert s[n - j..n] == s[n - k..n][k - j..];
    assert s[k - j..k] == s[..k][k - j..];
  }

  lemma BorderOfBorder(s: string, n: nat, k: nat, j: nat)
    requires n <= |s| && IsBorder(s, n, k) && IsBorder(s, k, j)
    ensures IsBorder(s, n, j)
  {
    assert s[n - j..n] == s[n - k..n][k - j..];
    assert s[k - j..k] == s[..k][k - j..];
  }

  method GetNext(str: string) returns (next: array<nat>)
    ensures next.Length == |str|
    ensures forall i | 0 <= i < |str| :: Entry(str, next[i], i)
  {
    next := new nat[|str|](_ => 0);
    var i := 1;
    while i < |str|
      invariant 1 <= i && forall j | 0 <= j < i && j < |str| :: Entry(str, next[j], j)
    {
      var k: nat := next[i - 1];
      assert Entry(str, next[i - 1], i - 1);
      FirstCandidate(str, i, k);
      while k > 0 && str[i] != str[k]
        modifies {}
        invariant IsBorder(str, i, k) && NoneLonger(str, i + 1, k + 1)
      {
        assert Entry(str, next[k - 1], k - 1);
        Fallback(str, i, k, next[k - 1]);
        k := next[k - 1];
      }
      LastCandidate(str, i, k);
      if str[i] == str[k] {
        k := k + 1;
      }
      next[i] := k;
      i := i + 1;
    }
  }

  lemma FirstCandidate(s: string, i: nat, k: nat)
    requires 0 < i < |s| && IsLongestBorder(s, i, k)
    ensures NoneLonger(s, i + 1, k + 1)
  {
    var n := i + 1;
    forall j: nat | IsBorder(s, n, j)
      ensures j <= k + 1
    {
      if j > 0 { BorderShrinks(s, i, j - 1); }
    }
  }

  /** When the longest candidate does not extend, the next one is its own longest border. */
  lemma Fallback(s: string, i: nat, k: nat, k': nat)
    requires 0 < k < i < |s| && IsBorder(s, i, k) && IsLongestBorder(s, k, k') && s[i] != s[k]
    requires NoneLonger(s, i + 1, k + 1)
    ensures IsBorder(s, i, k') && NoneLonger(s, i + 1, k' + 1)
  {
    BorderOfBorder(s, i, k, k');
    var n := i + 1;
    forall j: nat | IsBorder(s, n, j)
      ensures j <= k' + 1
    {
      if j > 0 {
        BorderShrinks(s, i, j - 1);
        if j - 1 < k {
          BorderWithin(s, i, k, j - 1);
        }
      }
    }
  }

  lemma LastCandidate(s: string, i: nat, k: nat)
    requires 0 < i < |s| && IsBorder(s, i, k) && NoneLonger(s, i + 1, k + 1) && (k > 0 ==> s[i] == s[k])
    ensures IsLongestBorder(s, i + 1, if s[i] == s[k] then k + 1 else k)
  {
    if s[i] == s[k] {
      BorderGrows(s, i, k);
    } else {
      var n := i + 1;
      forall j: nat | IsBorder(s, n, j)
        ensures j <= 0
      {
        if j > 0 { BorderShrinks(s, i, j - 1); }
      }
    }
  }

  /** From the length `n` the table leads to `j`. */
  ghost predicate Leads(next: seq<nat>, n: nat, j: nat)
    requires n <= |next|
  {
    n > 0 && next[n - 1] < n && (next[n - 1] == j || Leads(next, next[n - 1], j))
  }

  /** What searching relies on: following the table from a length visits all its borders and nothing else. */
  lemma {:induction false} TableVisitsEveryBorder(s: string, next: seq<nat>, n: nat, j: nat)
    requires |next| == |s| && n <= |s|
    requires forall i | 0 <= i < |s| :: Entry(s, next[i], i)
    ensures Leads(next, n, j) <==> IsBorder(s, n, j)
    decreases n
  {
    if n > 0 {
      var k := next[n - 1];
      assert Entry(s, k, n - 1);
      TableVisitsEveryBorder(s, next, k, j);
      if IsBorder(s, n, j) && j != k {
        BorderWithin(s, n, k, j);
      }
      if IsBorder(s, k, j) {
        BorderOfBorder(s, n, k, j);
      }
    }
  }
}
