/** Small shared vocabulary: optional values, results, and the few JavaScript
    string operations the modelled code relies on, written out with the
    semantics of the ECMAScript built-ins they stand for. */
module Util {

  datatype Option<T> = None | Some(value: T)

  datatype Result<T> = Ok(value: T) | Err(error: string)

  /** The characters matched by `\s` in a JavaScript regular expression, which
      are also the characters `String.prototype.trim` removes: WhiteSpace and
      LineTerminator of ECMAScript, including the Unicode space separators. */
  predicate IsJsWhitespace(c: char) {
    c == '\t' || c == '\n' || c == '\U{B}' || c == '\U{C}' || c == '\r' || c == ' '
    || c == '\U{A0}' || c == '\U{1680}' || ('\U{2000}' <= c <= '\U{200A}')
    || c == '\U{2028}' || c == '\U{2029}' || c == '\U{202F}' || c == '\U{205F}'
    || c == '\U{3000}' || c == '\U{FEFF}'
  }

  /** JavaScript truthiness of a string: only the empty string is falsy. */
  predicate Truthy(s: string) { s != "" }

  /** `s.startsWith(p)` */
  predicate StartsWith(s: string, p: string) {
    |p| <= |s| && s[..|p|] == p
  }

  /** `sub` occurs in `s` starting at index `i`. */
  predicate OccursAt(s: string, sub: string, i: int) {
    0 <= i <= |s| - |sub| && s[i..i + |sub|] == sub
  }

  /** `s.includes(sub)` */
  predicate Includes(s: string, sub: string) {
    exists i | 0 <= i <= |s| - |sub| :: OccursAt(s, sub, i)
  }

  function Clamp(x: int, lo: int, hi: int): (r: int)
    requires lo <= hi
    ensures lo <= r <= hi
    ensures lo <= x <= hi ==> r == x
  {
    if x < lo then lo else if x > hi then hi else x
  }

  /** `s.substring(a, b)`: both arguments are clamped to [0, |s|] and swapped
      when the first is larger. */
  function JsSubstring(s: string, a: int, b: int): (r: string)
    ensures 0 <= a <= b <= |s| ==> r == s[a..b]
    ensures 0 <= b <= a <= |s| ==> r == s[b..a]
    ensures |r| <= |s|
  {
    var x := Clamp(a, 0, |s|);
    var y := Clamp(b, 0, |s|);
    if x <= y then s[x..y] else s[y..x]
  }

  /** Drops leading whitespace (the effect of `\s*` at the start of a match). */
  function TrimStart(s: string): string {
    if s != [] && IsJsWhitespace(s[0]) then TrimStart(s[1..]) else s
  }

  function TrimEnd(s: string): string {
    if s != [] && IsJsWhitespace(s[|s| - 1]) then TrimEnd(s[..|s| - 1]) else s
  }

  /** `s.trim()` */
  function Trim(s: string): string {
    TrimEnd(TrimStart(s))
  }

  /** What is dropped from the front is whitespace; what remains is a suffix
      that does not start with whitespace. */
  lemma {:induction false} TrimStartSpec(s: string)
    ensures |TrimStart(s)| <= |s| && TrimStart(s) == s[|s| - |TrimStart(s)|..]
    ensures TrimStart(s) == "" || !IsJsWhitespace(TrimStart(s)[0])
    ensures forall i | 0 <= i < |s| - |TrimStart(s)| :: IsJsWhitespace(s[i])
  {
    if s != [] && IsJsWhitespace(s[0]) {
      TrimStartSpec(s[1..]);
      assert forall i | 1 <= i < |s| :: s[i] == s[1..][i - 1];
    }
  }

  lemma {:induction false} TrimEndSpec(s: string)
    ensures |TrimEnd(s)| <= |s| && TrimEnd(s) == s[..|TrimEnd(s)|]
    ensures TrimEnd(s) == "" || !IsJsWhitespace(TrimEnd(s)[|TrimEnd(s)| - 1])
    ensures forall i | |TrimEnd(s)| <= i < |s| :: IsJsWhitespace(s[i])
  {
    if s != [] && IsJsWhitespace(s[|s| - 1]) {
      TrimEndSpec(s[..|s| - 1]);
      var r := TrimEnd(s[..|s| - 1]);
      assert s[..|s| - 1][..|r|] == s[..|r|];
    }
  }

  /** The trimmed text occurs in the text and has no whitespace at its ends. */
  lemma TrimSpec(s: string)
    ensures Trim(s) == "" || (!IsJsWhitespace(Trim(s)[0]) && !IsJsWhitespace(Trim(s)[|Trim(s)| - 1]))
    ensures OccursAt(s, Trim(s), |s| - |TrimStart(s)|)
  {
    TrimStartSpec(s);
    var t := TrimStart(s);
    TrimEndSpec(t);
    var r := TrimEnd(t);
    assert t[..|r|] == s[|s| - |t|..][..|r|];
  }

  function Digit(d: nat): char
    requires d < 10
  {
    ['0', '1', '2', '3', '4', '5', '6', '7', '8', '9'][d]
  }

  function DigitValue(c: char): nat {
    if '0' <= c <= '9' then (c as int - '0' as int) as nat else 0
  }

  predicate IsDigit(c: char) { '0' <= c <= '9' }

  /** The decimal rendering JavaScript gives a non-negative integer
      (template literals, `String(n)`). */
  function DecimalString(n: nat): (r: string)
    ensures |r| >= 1
    ensures forall i | 0 <= i < |r| :: IsDigit(r[i])
    decreases n
  {
    if n < 10 then [Digit(n)] else DecimalString(n / 10) + [Digit(n % 10)]
  }

  /** Reads a string of decimal digits back as a number. */
  function ParseDecimal(s: string): nat
    decreases |s|
  {
    if s == [] then 0 else ParseDecimal(s[..|s| - 1]) * 10 + DigitValue(s[|s| - 1])
  }

  lemma DigitRoundTrip(d: nat)
    requires d < 10
    ensures DigitValue(Digit(d)) == d
  {
  }

  /** Decimal rendering is inverted by parsing, so distinct numbers render
      as distinct strings. */
  lemma {:induction false} DecimalRoundTrip(n: nat)
    ensures ParseDecimal(DecimalString(n)) == n
    decreases n
  {
    if n < 10 {
      DigitRoundTrip(n);
    } else {
      var s := DecimalString(n / 10) + [Digit(n % 10)];
      assert s[..|s| - 1] == DecimalString(n / 10);
      DecimalRoundTrip(n / 10);
      DigitRoundTrip(n % 10);
    }
  }

  lemma DecimalInjective(m: nat, n: nat)
    ensures DecimalString(m) == DecimalString(n) ==> m == n
  {
    DecimalRoundTrip(m);
    DecimalRoundTrip(n);
  }

  /** `String(n)` for an integer that may be negative. */
  function IntString(n: int): (r: string)
    ensures |r| >= 1 && ' ' !in r
    ensures r[0] == '-' <==> n < 0
  {
    if n < 0 then "-" + DecimalString(-n) else DecimalString(n)
  }

  /** Distinct integers render as distinct strings: the sign tells negative
      from non-negative, and the digits are inverted by parsing. */
  lemma {:induction false} IntStringInjective(m: int, n: int)
    ensures IntString(m) == IntString(n) ==> m == n
  {
    if IntString(m) == IntString(n) {
      if m < 0 {
        assert n < 0;
        assert IntString(m)[1..] == DecimalString(-m);
        assert IntString(n)[1..] == DecimalString(-n);
        DecimalInjective(-m, -n);
      } else {
        DecimalInjective(m, n);
      }
    }
  }

  /** Position of the first space in `s`, or `|s|` when there is none. */
  function FirstSpace(s: string): (r: nat)
    ensures r <= |s|
    ensures forall i | 0 <= i < r :: s[i] != ' '
    ensures r < |s| ==> s[r] == ' '
  {
    if s == [] then 0 else if s[0] == ' ' then 0 else 1 + FirstSpace(s[1..])
  }

  lemma {:induction false} FirstSpaceAfterWord(a: string, x: string)
    requires ' ' !in a
    ensures FirstSpace(a + " " + x) == |a|
  {
    if a != [] {
      assert (a + " " + x)[1..] == a[1..] + " " + x;
      FirstSpaceAfterWord(a[1..], x);
    }
  }

  /** A word without spaces followed by a space can be split off again: the
      first space marks where the word ends. */
  lemma SpaceSeparated(a: string, x: string, b: string, y: string)
    requires ' ' !in a && ' ' !in b
    requires a + " " + x == b + " " + y
    ensures a == b && x == y
  {
    var s := a + " " + x;
    FirstSpaceAfterWord(a, x);
    FirstSpaceAfterWord(b, y);
    assert a == s[..|a|] == b;
    assert x == s[|a| + 1..] == y;
  }

  /** `keys.map(k => table[k]).filter(Boolean)`: looks every key up and drops
      the ones with no entry, keeping the order of the keys. */
  function Resolved<T>(keys: seq<string>, table: map<string, T>): (r: seq<T>)
    ensures |r| <= |keys|
    ensures keys == [] ==> r == []
  {
    if keys == [] then []
    else (if keys[0] in table then [table[keys[0]]] else []) + Resolved(keys[1..], table)
  }

  /** An entry is in the resolved list exactly when some key of the list has it
      as its table entry. */
  lemma {:induction false} ResolvedMembership<T>(keys: seq<string>, table: map<string, T>, x: T)
    ensures x in Resolved(keys, table) <==>
            exists i | 0 <= i < |keys| :: keys[i] in table && table[keys[i]] == x
  {
    if keys != [] {
      ResolvedMembership(keys[1..], table, x);
      var head := if keys[0] in table then [table[keys[0]]] else [];
      assert Resolved(keys, table) == head + Resolved(keys[1..], table);
      if exists i | 0 <= i < |keys| :: keys[i] in table && table[keys[i]] == x {
        var i :| 0 <= i < |keys| && keys[i] in table && table[keys[i]] == x;
        if i > 0 {
          assert keys[1..][i - 1] == keys[i];
        }
      }
      if x in Resolved(keys[1..], table) {
        var j :| 0 <= j < |keys[1..]| && keys[1..][j] in table && table[keys[1..][j]] == x;
        assert keys[j + 1] == keys[1..][j];
      }
    }
  }

  /** When every key has an entry nothing is dropped. */
  lemma {:induction false} ResolvedTotal<T>(keys: seq<string>, table: map<string, T>)
    requires forall i | 0 <= i < |keys| :: keys[i] in table
    ensures |Resolved(keys, table)| == |keys|
    ensures forall i | 0 <= i < |keys| :: Resolved(keys, table)[i] == table[keys[i]]
  {
    if keys != [] {
      ResolvedTotal(keys[1..], table);
    }
  }

  /** `xs.filter(x => x !== v)` */
  function Without(xs: seq<string>, v: string): (r: seq<string>)
    ensures |r| <= |xs|
    ensures forall x :: x in r <==> x in xs && x != v
  {
    if xs == [] then []
    else (if xs[0] == v then [] else [xs[0]]) + Without(xs[1..], v)
  }

  predicate NoDuplicates<T(==)>(xs: seq<T>) {
    forall i, j | 0 <= i < j < |xs| :: xs[i] != xs[j]
  }

  /** Filtering keeps a duplicate-free list duplicate-free. */
  lemma {:induction false} WithoutKeepsNoDuplicates(xs: seq<string>, v: string)
    requires NoDuplicates(xs)
    ensures NoDuplicates(Without(xs, v))
  {
    if xs != [] {
      WithoutKeepsNoDuplicates(xs[1..], v);
      var rest := Without(xs[1..], v);
      assert xs[0] !in xs[1..];
      assert xs[0] !in rest;
    }
  }

  /** All elements of a finite set in some order, each once (the rows a
      `getAll` query returns). */
  method Enumerate<T(==)>(s: set<T>) returns (r: seq<T>)
    ensures multiset(r) == multiset(s)
    ensures |r| == |s|
  {
    r := [];
    var todo := s;
    while todo != {}
      invariant todo <= s
      invariant multiset(r) == multiset(s - todo)
      invariant |r| + |todo| == |s|
      decreases |todo|
    {
      var x :| x in todo;
      assert s - (todo - {x}) == (s - todo) + {x};
      r := r + [x];
      todo := todo - {x};
    }
    assert s - todo == s;
  }

  /** Resolving one more key appends its entry, if it has one. */
  lemma {:induction false} ResolvedSnoc<T>(keys: seq<string>, k: string, table: map<string, T>)
    ensures Resolved(keys + [k], table) == Resolved(keys, table) + (if k in table then [table[k]] else [])
    decreases |keys|
  {
    var last: seq<T> := if k in table then [table[k]] else [];
    if keys == [] {
      assert keys + [k] == [k];
      assert Resolved([k], table) == last + Resolved([], table);
    } else {
      var ks := keys + [k];
      var head: seq<T> := if keys[0] in table then [table[keys[0]]] else [];
      assert ks[0] == keys[0] && ks[1..] == keys[1..] + [k];
      assert Resolved(ks, table) == head + Resolved(keys[1..] + [k], table);
      ResolvedSnoc(keys[1..], k, table);
      assert Resolved(keys, table) == head + Resolved(keys[1..], table);
    }
  }

  /** `keys.map(...).filter(Boolean)` written as the loop with `push` the
      lookups use. */
  method ResolveAll<T>(keys: seq<string>, table: map<string, T>) returns (r: seq<T>)
    ensures r == Resolved(keys, table)
  {
    r := [];
    var i := 0;
    while i < |keys|
      invariant 0 <= i <= |keys|
      invariant r == Resolved(keys[..i], table)
    {
      assert keys[..i + 1] == keys[..i] + [keys[i]];
      ResolvedSnoc(keys[..i], keys[i], table);
      if keys[i] in table {
        r := r + [table[keys[i]]];
      }
      i := i + 1;
    }
    assert keys[..i] == keys;
  }

  /** Two equal elements at different positions count twice. */
  lemma TwoOccurrences<T>(a: seq<T>, i: int, j: int)
    requires 0 <= i < j < |a| && a[i] == a[j]
    ensures multiset(a)[a[i]] >= 2
  {
    assert a == a[..i] + [a[i]] + a[i + 1..j] + [a[j]] + a[j + 1..];
  }

  /** `s.slice(a, b)`: a negative argument counts from the end; both are
      then clamped to [0, |s|], and a backwards range is empty. */
  function JsSlice(s: string, a: int, b: int): (r: string)
    ensures 0 <= a <= b <= |s| ==> r == s[a..b]
    ensures |r| <= |s|
  {
    var x := if a < 0 then Clamp(|s| + a, 0, |s|) else Clamp(a, 0, |s|);
    var y := if b < 0 then Clamp(|s| + b, 0, |s|) else Clamp(b, 0, |s|);
    if x < y then s[x..y] else ""
  }

  /** `s.slice(0, k) + s.slice(k)` is `s` whatever `k` is. */
  lemma SliceSplits(s: string, k: int)
    ensures JsSlice(s, 0, k) + JsSlice(s, k, |s|) == s
  {
    var x := if k < 0 then Clamp(|s| + k, 0, |s|) else Clamp(k, 0, |s|);
    assert JsSlice(s, 0, k) == s[..x];
    assert JsSlice(s, k, |s|) == s[x..];
  }

  /** `parts.join('')` */
  function Concat(parts: seq<string>): string {
    if parts == [] then "" else Concat(parts[..|parts| - 1]) + parts[|parts| - 1]
  }

  lemma {:induction false} ConcatAppend(a: seq<string>, b: seq<string>)
    ensures Concat(a + b) == Concat(a) + Concat(b)
    decreases |b|
  {
    if b == [] {
      assert a + b == a;
    } else {
      var b' := b[..|b| - 1];
      var x := b[|b| - 1];
      assert (a + b)[..|a + b| - 1] == a + b';
      assert (a + b)[|a + b| - 1] == x;
      ConcatAppend(a, b');
      calc {
        Concat(a + b);
        Concat(a + b') + x;
        Concat(a) + Concat(b') + x;
        { assert Concat(b) == Concat(b') + x; }
        Concat(a) + Concat(b);
      }
    }
  }

  lemma ConcatSnoc(a: seq<string>, x: string)
    ensures Concat(a + [x]) == Concat(a) + x
  {
    assert (a + [x])[..|a|] == a;
  }

  lemma ConcatCons(x: string, a: seq<string>)
    ensures Concat([x] + a) == x + Concat(a)
  {
    ConcatAppend([x], a);
    assert Concat([x]) == Concat([]) + x;
  }

  /** Text without whitespace at either end is its own trim. */
  lemma TrimUnpadded(s: string)
    requires s == "" || (!IsJsWhitespace(s[0]) && !IsJsWhitespace(s[|s| - 1]))
    ensures Trim(s) == s
  {
    assert TrimStart(s) == s;
  }

  /** Moving one element from the pending set to the set handled keeps
      their union and keeps them apart. */
  lemma MoveOne<T>(done: set<T>, todo: set<T>, x: T)
    requires x in todo && done !! todo
    ensures (done + {x}) + (todo - {x}) == done + todo && (done + {x}) !! (todo - {x})
  {
  }
}
