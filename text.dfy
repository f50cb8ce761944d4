/** String and sequence helpers with the semantics of the JavaScript built-ins the
    game relies on: `String.prototype.split(',')`, `Array.prototype.join(',')`,
    `startsWith`, and the `deduplicate`/`intersection` helpers of the host framework. */
module Text {

  datatype Option<+T> = None | Some(value: T)

  /** `s.split(',')`: never empty; an empty string gives `[""]`. */
  function Split(s: string): (r: seq<string>)
    ensures |r| >= 1
    decreases |s|
  {
    if s == [] then [""]
    else
      var rest := Split(s[1..]);
      if s[0] == ',' then [""] + rest
      else [[s[0]] + rest[0]] + rest[1..]
  }

  /** `ps.join(',')`, written the way the inversion loop builds it: each further
      element is appended after a comma. */
  function Join(ps: seq<string>): string
    requires |ps| >= 1
  {
    if |ps| == 1 then ps[0] else Join(ps[..|ps| - 1]) + "," + ps[|ps| - 1]
  }

  /** A string without a comma splits to itself. */
  lemma {:induction false} SplitNoComma(s: string)
    requires ',' !in s
    ensures Split(s) == [s]
  {
    if s != [] {
      SplitNoComma(s[1..]);
      assert s[0] != ',' by { assert s[0] in s; }
      assert [s[0]] + s[1..] == s;
    }
  }

  /** Splitting distributes over a separating comma. */
  lemma {:induction false} SplitAtComma(a: string, b: string)
    ensures Split(a + [','] + b) == Split(a) + Split(b)
    decreases |a|
  {
    if a == [] {
      assert a + [','] + b == [','] + b;
      assert ([','] + b)[1..] == b;
    } else {
      assert (a + [','] + b)[1..] == a[1..] + [','] + b;
      SplitAtComma(a[1..], b);
    }
  }

  /** Round trip: splitting a comma-joined list of comma-free strings gives the list back. */
  lemma {:induction false} SplitJoin(ps: seq<string>)
    requires |ps| >= 1
    requires forall i :: 0 <= i < |ps| ==> ',' !in ps[i]
    ensures Split(Join(ps)) == ps
  {
    if |ps| == 1 {
      SplitNoComma(ps[0]);
    } else {
      var init, last := ps[..|ps| - 1], ps[|ps| - 1];
      SplitJoin(init);
      SplitNoComma(last);
      assert Join(ps) == Join(init) + [','] + last;
      SplitAtComma(Join(init), last);
      assert init + [last] == ps;
    }
  }

  /** Joining non-empty strings never gives the empty string. */
  lemma {:induction false} JoinNonEmpty(ps: seq<string>)
    requires |ps| >= 1 && ps[|ps| - 1] != ""
    ensures Join(ps) != ""
  {
  }

  /** `s.startsWith(prefix)` */
  predicate StartsWith(s: string, prefix: string)
  {
    |prefix| <= |s| && s[..|prefix|] == prefix
  }

  /** Upper-case letters whose lower-case form `toLowerCase` gives by a fixed offset:
      ASCII, Latin-1, Greek, Cyrillic and full-width Latin capitals. */
  predicate IsUpper(c: char)
  {
    ('A' <= c <= 'Z') || ('\U{00C0}' <= c <= '\U{00DE}' && c != '\U{00D7}')
    || ('\U{0391}' <= c <= '\U{03A9}' && c != '\U{03A2}') || ('\U{0410}' <= c <= '\U{042F}')
    || ('\U{FF21}' <= c <= '\U{FF3A}')
  }

  function LowerChar(c: char): (r: char)
    ensures !IsUpper(r)
    ensures !IsUpper(c) ==> r == c
  {
    if IsUpper(c) then (c as int + 32) as char else c
  }

  /** `s.toLowerCase()`, restricted to the letters `IsUpper` covers. */
  function ToLower(s: string): (r: string)
    ensures |r| == |s|
    ensures forall i :: 0 <= i < |s| ==> r[i] == LowerChar(s[i])
  {
    seq(|s|, i requires 0 <= i < |s| => LowerChar(s[i]))
  }

  predicate NoDup<T(==)>(s: seq<T>)
  {
    forall i, j :: 0 <= i < j < |s| ==> s[i] != s[j]
  }

  /** `[...new Set(s)]`: the first occurrence of each element, in order. */
  function Dedup<T(==,!new)>(s: seq<T>): (r: seq<T>)
    ensures NoDup(r)
    ensures forall x :: x in r <==> x in s
    ensures |r| <= |s|
    ensures |s| > 0 ==> |r| > 0 && r[0] == s[0]
  {
    if |s| == 0 then []
    else
      var d := Dedup(s[..|s| - 1]);
      if s[|s| - 1] in d then d else d + [s[|s| - 1]]
  }

  /** `intersection(a, b).length > 0` */
  predicate Intersects<T(==)>(a: seq<T>, b: seq<T>)
  {
    exists i :: 0 <= i < |a| && a[i] in b
  }

  /** The elements of a list, as a set. */
  function ToSet<T>(s: seq<T>): (r: set<T>)
    ensures forall i :: 0 <= i < |s| ==> s[i] in r
    ensures forall x :: x in r ==> x in s
  {
    set x | x in s
  }

  /** Decimal digits of a natural number, as `${n}` prints it. */
  function NatToString(n: nat): (r: string)
    ensures |r| >= 1
    ensures forall i :: 0 <= i < |r| ==> '0' <= r[i] <= '9'
  {
    if n < 10 then [Digit(n)] else NatToString(n / 10) + [Digit(n % 10)]
  }

  function Digit(d: nat): (c: char)
    requires d < 10
    ensures '0' <= c <= '9'
  {
    ['0', '1', '2', '3', '4', '5', '6', '7', '8', '9'][d]
  }

  /** `[...s]`: the elements of a set, each once, in the set's iteration order. */
  method Elements<T(==)>(s: set<T>) returns (xs: seq<T>)
    ensures ToSet(xs) == s && NoDup(xs) && |xs| == |s|
  {
    xs := [];
    var rest := s;
    while rest != {}
      invariant ToSet(xs) + rest == s && ToSet(xs) !! rest
      invariant NoDup(xs) && |xs| + |rest| == |s|
      decreases |rest|
    {
      var x :| x in rest;
      xs := xs + [x];
      rest := rest - {x};
    }
  }

  /** The index a pick among `n` elements lands on, given the remaining draws: the next
      draw reduced modulo `n`, or 0 once the draws run out. */
  function Drawn(draws: seq<nat>, n: nat): (i: nat)
    requires n > 0
    ensures i < n
  {
    if draws == [] then 0 else draws[0] % n
  }

  /** The draws left after one pick. */
  function Advance(draws: seq<nat>): (r: seq<nat>)
    ensures draws != [] ==> |r| == |draws| - 1
  {
    if draws == [] then [] else draws[1..]
  }

  /** The host framework's `Random.pick`, as an injected source of draws: each pick
      consumes the next draw (zero once they run out) and reduces it to an index. */
  class Random {
    var draws: seq<nat>

    constructor (draws: seq<nat>)
      ensures this.draws == draws
    {
      this.draws := draws;
    }

    /** An index into a list of `n` elements. */
    method Pick(n: nat) returns (i: nat)
      requires n > 0
      modifies this
      ensures i < n && i == Drawn(old(draws), n)
      ensures draws == Advance(old(draws))
    {
      if draws == [] {
        i := 0;
      } else {
        i := draws[0] % n;
        draws := draws[1..];
      }
    }
  }
}
