/** Small types shared by the modules of this project. */
module Common {
  datatype Option<+T> = None | Some(value: T)

  datatype Result<+T, +E> = Ok(value: T) | Err(error: E)

  function Min(a: int, b: int): int { if a <= b then a else b }

  function Max(a: int, b: int): int { if a >= b then a else b }

  lemma CountedTwice<T>(s: seq<T>, i: nat, j: nat)
    requires i < j < |s| && s[i] == s[j]
    ensures multiset(s)[s[i]] >= 2
  {
    assert s == s[..i] + [s[i]] + s[i + 1..j] + [s[j]] + s[j + 1..];
  }

  lemma {:induction false} SubsetSize<T>(a: set<T>, b: set<T>)
    requires a <= b
    ensures |a| <= |b|
  {
    if a != {} {
      var x :| x in a;
      SubsetSize(a - {x}, b - {x});
    }
  }

  lemma Associative<T>(a: seq<T>, b: seq<T>, c: seq<T>)
    ensures (a + b) + c == a + (b + c)
  {
  }

  /** The places before `n` where `p` holds. */
  ghost function Places(n: nat, p: int -> bool): set<int> {
    set i | 0 <= i < n && p(i)
  }

  lemma PlacesGrow(n: nat, p: int -> bool)
    requires n > 0
    ensures |Places(n, p)| == |Places(n - 1, p)| + if p(n - 1) then 1 else 0
  {
    if p(n - 1) {
      assert Places(n, p) == Places(n - 1, p) + {n - 1};
    } else {
      assert Places(n, p) == Places(n - 1, p);
    }
  }

  lemma PlacesSame(n: nat, p: int -> bool, q: int -> bool)
    requires forall i :: 0 <= i < n ==> p(i) == q(i)
    ensures Places(n, p) == Places(n, q)
  {
  }

  /** The position after the first newline, or 0 when there is none. */
  function LineLength(s: string): (k: nat)
    ensures k <= |s|
    ensures k > 0 ==> s[k - 1] == '\n' && '\n' !in s[..k - 1]
    ensures k == 0 ==> '\n' !in s
  {
    if s == "" then 0
    else if s[0] == '\n' then 1
    else
      var k := LineLength(s[1..]);
      if k == 0 then 0 else k + 1
  }

  lemma {:induction false} LineLengthIs(line: string, rest: string)
    requires '\n' !in line
    ensures LineLength(line + "\n" + rest) == |line| + 1
  {
    if line == "" {
      assert (line + "\n" + rest)[0] == '\n';
    } else {
      LineLengthIs(line[1..], rest);
      assert (line + "\n" + rest)[1..] == line[1..] + "\n" + rest;
    }
  }
}
