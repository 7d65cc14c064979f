/** String operations that several parts share. */
module Strings {
  // --- characters ---

  predicate IsBlank(c: char) { c == ' ' || c == '\t' }

  /** The Unicode White_Space property. */
  predicate IsSpace(c: char) {
    var n := c as int;
    || 0x09 <= n <= 0x0D || n == 0x20 || n == 0x85 || n == 0xA0 || n == 0x1680
    || 0x2000 <= n <= 0x200A || n == 0x2028 || n == 0x2029 || n == 0x202F || n == 0x205F || n == 0x3000
  }

  predicate AllSpace(s: string) { forall k :: 0 <= k < |s| ==> IsSpace(s[k]) }

  ghost predicate OnlyBlanks(s: string) { forall c <- s :: c == ' ' || c == '\t' }

  function Spaces(d: nat): string { seq(d, _ => ' ') }

  /** How many blanks the line starts with. */
  function Blanks(line: string): (n: nat)
    ensures n <= |line|
    ensures forall k :: 0 <= k < n ==> IsBlank(line[k])
    ensures n < |line| ==> !IsBlank(line[n])
  {
    BlanksFrom(line, 0)
  }

  function BlanksFrom(line: string, i: nat): (n: nat)
    requires i <= |line| && forall k :: 0 <= k < i ==> IsBlank(line[k])
    ensures n <= |line|
    ensures forall k :: 0 <= k < n ==> IsBlank(line[k])
    ensures n < |line| ==> !IsBlank(line[n])
    decreases |line| - i
  {
    if i < |line| && IsBlank(line[i]) then BlanksFrom(line, i + 1) else i
  }

  // --- replacing ---

  /** Every occurrence of `what`, from the left and without overlaps, becomes `with`. */
  function ReplaceAll(s: string, what: string, with: string): string
    requires what != ""
    decreases |s|
  {
    if s == "" then ""
    else if what <= s then with + ReplaceAll(s[|what|..], what, with)
    else [s[0]] + ReplaceAll(s[1..], what, with)
  }

  // --- order ---

  /** Not after in the order of code points, which is also that of their UTF-8 bytes. */
  predicate NotAfter(a: string, b: string) {
    a == "" || (b != "" && (a[0] < b[0] || (a[0] == b[0] && NotAfter(a[1..], b[1..]))))
  }

  lemma {:induction false} NotAfterTotal(a: string, b: string)
    ensures NotAfter(a, b) || NotAfter(b, a)
  {
    if a != "" && b != "" && a[0] == b[0] {
      NotAfterTotal(a[1..], b[1..]);
    }
  }

  lemma {:induction false} NotAfterAntisymmetric(a: string, b: string)
    requires NotAfter(a, b) && NotAfter(b, a)
    ensures a == b
  {
    if a != "" && b != "" {
      NotAfterAntisymmetric(a[1..], b[1..]);
      assert a == [a[0]] + a[1..] && b == [b[0]] + b[1..];
    }
  }

  lemma {:induction false} NotAfterTransitive(a: string, b: string, c: string)
    requires NotAfter(a, b) && NotAfter(b, c)
    ensures NotAfter(a, c)
  {
    if a != "" && b != "" && c != "" && a[0] == b[0] == c[0] {
      NotAfterTransitive(a[1..], b[1..], c[1..]);
    }
  }

  predicate IsSorted(s: seq<string>) {
    forall i, j :: 0 <= i < j < |s| ==> NotAfter(s[i], s[j])
  }

  function Inserted(x: string, s: seq<string>): (r: seq<string>)
    requires IsSorted(s)
    ensures IsSorted(r) && multiset(r) == multiset(s) + multiset{x}
  {
    if s == [] then [x]
    else if NotAfter(x, s[0]) then
      InsertedFirst(x, s);
      [x] + s
    else
      NotAfterTotal(x, s[0]);
      InsertedLater(x, s, Inserted(x, s[1..]));
      [s[0]] + Inserted(x, s[1..])
  }

  lemma InsertedFirst(x: string, s: seq<string>)
    requires IsSorted(s) && s != [] && NotAfter(x, s[0])
    ensures IsSorted([x] + s)
  {
    forall j | 0 <= j < |s|
      ensures NotAfter(x, s[j])
    {
      if j > 0 {
        NotAfterTransitive(x, s[0], s[j]);
      }
    }
  }

  lemma InsertedLater(x: string, s: seq<string>, r: seq<string>)
    requires IsSorted(s) && s != [] && NotAfter(s[0], x)
    requires IsSorted(r) && multiset(r) == multiset(s[1..]) + multiset{x}
    ensures IsSorted([s[0]] + r)
    ensures multiset([s[0]] + r) == multiset(s) + multiset{x}
  {
    assert s == [s[0]] + s[1..];
    forall j | 0 <= j < |r|
      ensures NotAfter(s[0], r[j])
    {
      assert r[j] in multiset(r);
      if r[j] != x {
        assert r[j] in multiset(s[1..]);
        assert r[j] in s[1..];
      }
    }
  }

  /** The same strings in order. */
  function Sorted(s: seq<string>): (r: seq<string>)
    ensures IsSorted(r) && multiset(r) == multiset(s)
  {
    if s == [] then []
    else
      assert s == [s[0]] + s[1..];
      Inserted(s[0], Sorted(s[1..]))
  }
}
