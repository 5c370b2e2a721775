/** String operations of the Go standard library that the operator relies on.
    A `string` here is a Go string: one `char` stands for one byte. */
module Text {

  /** `m` occurs in `s` at position `k`. */
  predicate At(s: string, m: string, k: int) {
    0 <= k && k + |m| <= |s| && s[k..k + |m|] == m
  }

  ghost predicate Occurs(s: string, m: string) {
    exists k :: At(s, m, k)
  }

  /** strings.Index restricted to positions `k` and later. */
  function IndexFrom(s: string, m: string, k: nat): (i: int)
    requires k <= |s|
    ensures i == -1 || (k <= i && At(s, m, i))
    ensures forall j :: k <= j && (i == -1 || j < i) ==> !At(s, m, j)
    decreases |s| - k
  {
    if At(s, m, k) then k
    else if k == |s| then -1
    else IndexFrom(s, m, k + 1)
  }

  /** strings.Index: the first occurrence, or -1. */
  function Index(s: string, m: string): (i: int)
    ensures i == -1 <==> !Occurs(s, m)
    ensures i != -1 ==> At(s, m, i) && forall j :: 0 <= j < i ==> !At(s, m, j)
  {
    var i := IndexFrom(s, m, 0);
    assert forall j :: At(s, m, j) ==> 0 <= j;
    i
  }

  /** strings.Contains. */
  predicate Contains(s: string, m: string)
    ensures Contains(s, m) <==> Occurs(s, m)
  {
    Index(s, m) != -1
  }

  /** The position `Index` returns is the only one that is first. */
  lemma IndexIs(s: string, m: string, i: nat)
    requires At(s, m, i)
    requires forall j :: 0 <= j < i ==> !At(s, m, j)
    ensures Index(s, m) == i
  {
    assert Occurs(s, m);
  }

  /** Cutting `s` at `c` keeps the first occurrence of `m` exactly when it ends by `c`. */
  lemma IndexInPrefix(s: string, m: string, c: nat)
    requires c <= |s|
    ensures Index(s[..c], m) == if Index(s, m) != -1 && Index(s, m) + |m| <= c then Index(s, m) else -1
  {
    forall j ensures At(s[..c], m, j) <==> At(s, m, j) && j + |m| <= c {
      if 0 <= j && j + |m| <= c {
        assert s[..c][j..j + |m|] == s[j..j + |m|];
      }
    }
    var i := Index(s, m);
    if i != -1 && i + |m| <= c {
      IndexIs(s[..c], m, i);
    }
  }

  /** unicode.IsSpace on ASCII. */
  predicate IsSpace(c: char) {
    c == ' ' || '\t' <= c <= '\r'
  }

  /** Tab, line feed, vertical tab, form feed, carriage return and blank. */
  lemma SpaceCharacters(c: char)
    ensures IsSpace(c) <==> c as int in {9, 10, 11, 12, 13, 32}
  {
  }

  predicate AllSpace(s: string) {
    forall i :: 0 <= i < |s| ==> IsSpace(s[i])
  }

  predicate NoSpace(s: string) {
    forall i :: 0 <= i < |s| ==> !IsSpace(s[i])
  }

  /** No white space at either end. */
  predicate Trimmed(s: string) {
    s != "" ==> !IsSpace(s[0]) && !IsSpace(s[|s| - 1])
  }

  /** The number of leading white space characters. */
  function SpacesBefore(s: string): (n: nat)
    ensures n <= |s| && forall i :: 0 <= i < n ==> IsSpace(s[i])
    ensures n < |s| ==> !IsSpace(s[n])
  {
    if s == "" || !IsSpace(s[0]) then 0 else 1 + SpacesBefore(s[1..])
  }

  /** The length of `s` without its trailing white space. */
  function SpacesFrom(s: string): (n: nat)
    ensures n <= |s| && forall i :: n <= i < |s| ==> IsSpace(s[i])
    ensures n > 0 ==> !IsSpace(s[n - 1])
  {
    if s == "" || !IsSpace(s[|s| - 1]) then |s| else SpacesFrom(s[..|s| - 1])
  }

  lemma {:induction false} SpacesBeforeIs(s: string, n: nat)
    requires n <= |s| && (forall i :: 0 <= i < n ==> IsSpace(s[i]))
    requires n < |s| ==> !IsSpace(s[n])
    ensures SpacesBefore(s) == n
  {
    if n > 0 {
      SpacesBeforeIs(s[1..], n - 1);
    }
  }

  lemma {:induction false} SpacesFromIs(s: string, n: nat)
    requires n <= |s| && (forall i :: n <= i < |s| ==> IsSpace(s[i]))
    requires n > 0 ==> !IsSpace(s[n - 1])
    ensures SpacesFrom(s) == n
  {
    if n < |s| {
      SpacesFromIs(s[..|s| - 1], n);
    }
  }

  /** strings.TrimSpace. */
  function TrimSpace(s: string): (t: string)
    ensures Trimmed(t) && |t| <= |s|
  {
    var r := s[SpacesBefore(s)..];
    r[..SpacesFrom(r)]
  }

  /** Trimming takes a piece and leaves out white space only. */
  lemma TrimPiece(s: string) returns (a: nat, b: nat)
    ensures a <= b <= |s| && TrimSpace(s) == s[a..b]
    ensures AllSpace(s[..a]) && AllSpace(s[b..])
  {
    a := SpacesBefore(s);
    b := a + |TrimSpace(s)|;
    assert TrimSpace(s) == s[a..b];
  }

  lemma TrimAllSpace(s: string)
    ensures AllSpace(TrimSpace(s)) <==> AllSpace(s)
  {
    hide TrimSpace;
    var a, b := TrimPiece(s);
    assert forall i :: 0 <= i < a ==> s[..a][i] == s[i];
    assert forall i :: a <= i < b ==> s[a..b][i - a] == s[i];
    assert forall i :: b <= i < |s| ==> s[b..][i - b] == s[i];
  }

  /** Trimming is determined by its two properties. */
  lemma TrimUnique(w: string, t: string, v: string)
    requires AllSpace(w) && AllSpace(v) && Trimmed(t)
    ensures TrimSpace(w + t + v) == t
  {
    var s := w + t + v;
    if t == "" {
      SpacesBeforeIs(s, |s|);
    } else {
      SpacesBeforeIs(s, |w|);
      assert s[|w|..] == t + v;
      SpacesFromIs(t + v, |t|);
    }
  }

  predicate IsDigit(c: char) {
    '0' <= c <= '9'
  }

  predicate AllDigits(s: string) {
    forall i :: 0 <= i < |s| ==> IsDigit(s[i])
  }

  function Digit(d: nat): (c: char)
    requires d < 10
    ensures IsDigit(c) && c as int - '0' as int == d
  {
    '0' + d as char
  }

  /** The `%d` rendering of a natural number. */
  function Decimal(n: nat): (s: string)
    ensures s != "" && AllDigits(s)
    ensures NumberOf(s) == n
  {
    if n < 10 then
      assert NumberOf([Digit(n)]) == 10 * NumberOf("") + n;
      [Digit(n)]
    else
      var p := Decimal(n / 10);
      var s := p + [Digit(n % 10)];
      assert s[..|s| - 1] == p;
      s
  }

  /** The value of a run of decimal digits. */
  function NumberOf(s: string): (n: nat)
    requires AllDigits(s)
  {
    if s == "" then 0
    else 10 * NumberOf(s[..|s| - 1]) + (s[|s| - 1] as int - '0' as int)
  }
}
