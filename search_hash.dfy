/**
 * `createSearchHash`: the cache key suffix of a search. The parameter names are sorted
 * the way `Array.prototype.sort` sorts strings (by UTF-16 code units), each becomes
 * `name=<JSON of its value>`, the fragments are joined with `&`, and the 31-multiplier
 * string hash is folded over the UTF-16 code units of the result in signed 32-bit
 * arithmetic. The key is the absolute value of the hash in base 36.
 *
 * The parameters are an object's own properties, each a `Member` in the object's own
 * enumeration order.
 */
module SearchHash {
  import opened Wrappers
  import opened Text
  import opened Json

  // ---------------------------------------------------------------------------------------
  // UTF-16 view of strings
  // ---------------------------------------------------------------------------------------

  /** The UTF-16 code units of one character: itself, or a surrogate pair above U+FFFF. */
  function CodeUnits(c: char): (u: seq<int>)
    ensures 1 <= |u| <= 2
    ensures forall i :: 0 <= i < |u| ==> 0 <= u[i] < 0x10000
    ensures |u| == 1 <==> (c as int) < 0x10000
  {
    var v := c as int;
    if v < 0x10000 then [v] else [0xD800 + (v - 0x10000) / 0x400, 0xDC00 + (v - 0x10000) % 0x400]
  }

  /** What `charCodeAt` walks through: the string as UTF-16 code units. */
  function Utf16(s: string): (u: seq<int>)
    ensures |s| <= |u| <= 2 * |s|
    ensures forall i :: 0 <= i < |u| ==> 0 <= u[i] < 0x10000
  {
    if s == [] then [] else CodeUnits(s[0]) + Utf16(s[1..])
  }

  /**
   * Distinct strings have distinct UTF-16 forms: a character below U+FFFF is never a
   * surrogate, so the first unit tells a single unit from a pair, and a pair gives back
   * its character.
   */
  lemma {:induction false} Utf16Injective(a: string, b: string)
    ensures Utf16(a) == Utf16(b) ==> a == b
  {
    if a != [] && b != [] && Utf16(a) == Utf16(b) {
      var ua, ub := CodeUnits(a[0]), CodeUnits(b[0]);
      assert Utf16(a)[0] == ua[0] && Utf16(b)[0] == ub[0];
      assert |ua| == |ub|;
      if |ua| == 2 {
        assert Utf16(a)[1] == ua[1] && Utf16(b)[1] == ub[1];
        PairDetermines(a[0] as int, b[0] as int);
      }
      assert ua == ub;
      assert Utf16(a)[|ua|..] == Utf16(a[1..]);
      assert Utf16(b)[|ub|..] == Utf16(b[1..]);
      Utf16Injective(a[1..], b[1..]);
      assert a == [a[0]] + a[1..];
      assert b == [b[0]] + b[1..];
    } else if a == [] && b != [] {
      assert |Utf16(b)| > 0;
    } else if a != [] && b == [] {
      assert |Utf16(a)| > 0;
    }
  }

  lemma PairDetermines(v: int, w: int)
    requires 0x10000 <= v && 0x10000 <= w
    requires (v - 0x10000) / 0x400 == (w - 0x10000) / 0x400
    requires (v - 0x10000) % 0x400 == (w - 0x10000) % 0x400
    ensures v == w
  {
  }

  // ---------------------------------------------------------------------------------------
  // The default sort order of strings
  // ---------------------------------------------------------------------------------------

  /** Lexicographic order of code-unit sequences; a proper prefix comes first. */
  predicate LexLess(u: seq<int>, v: seq<int>)
  {
    |v| > 0 && (|u| == 0 || u[0] < v[0] || (u[0] == v[0] && LexLess(u[1..], v[1..])))
  }

  lemma {:induction false} LexLessIrreflexive(u: seq<int>)
    ensures !LexLess(u, u)
  {
    if |u| > 0 {
      LexLessIrreflexive(u[1..]);
    }
  }

  lemma {:induction false} LexLessTransitive(u: seq<int>, v: seq<int>, w: seq<int>)
    requires LexLess(u, v) && LexLess(v, w)
    ensures LexLess(u, w)
  {
    if |u| > 0 && u[0] == v[0] && v[0] == w[0] {
      LexLessTransitive(u[1..], v[1..], w[1..]);
    }
  }

  lemma {:induction false} LexLessTotal(u: seq<int>, v: seq<int>)
    ensures u == v || LexLess(u, v) || LexLess(v, u)
  {
    if |u| > 0 && |v| > 0 && u[0] == v[0] {
      LexLessTotal(u[1..], v[1..]);
      if u[1..] == v[1..] {
        assert u == [u[0]] + u[1..] && v == [v[0]] + v[1..];
      }
    }
  }

  /** `a` sorts before `b` under the default comparison of `Array.prototype.sort`. */
  predicate KeyLess(a: string, b: string)
  {
    LexLess(Utf16(a), Utf16(b))
  }

  /** The default comparison is a strict total order on strings. */
  lemma KeyOrder(a: string, b: string, c: string)
    ensures !KeyLess(a, a)
    ensures KeyLess(a, b) && KeyLess(b, c) ==> KeyLess(a, c)
    ensures a == b || KeyLess(a, b) || KeyLess(b, a)
  {
    LexLessIrreflexive(Utf16(a));
    if KeyLess(a, b) && KeyLess(b, c) {
      LexLessTransitive(Utf16(a), Utf16(b), Utf16(c));
    }
    LexLessTotal(Utf16(a), Utf16(b));
    Utf16Injective(a, b);
  }

  predicate Sorted(s: seq<string>)
  {
    forall i, j :: 0 <= i < j < |s| ==> !KeyLess(s[j], s[i])
  }

  /** Inserts `x` before the first element that does not sort before it. */
  function Insert(x: string, s: seq<string>): (r: seq<string>)
    requires Sorted(s)
    ensures Sorted(r)
    ensures multiset(r) == multiset(s) + multiset{x}
  {
    if s == [] then [x]
    else if !KeyLess(s[0], x) then
      InsertFirst(x, s);
      [x] + s
    else
      var r := [s[0]] + Insert(x, s[1..]);
      InsertAfter(x, s, r);
      assert s == [s[0]] + s[1..];
      r
  }

  lemma InsertFirst(x: string, s: seq<string>)
    requires Sorted(s) && s != [] && !KeyLess(s[0], x)
    ensures Sorted([x] + s)
  {
    var r := [x] + s;
    forall i, j | 0 <= i < j < |r|
      ensures !KeyLess(r[j], r[i])
    {
      if i == 0 {
        KeyOrder(s[j - 1], s[0], x);
        KeyOrder(s[0], s[j - 1], x);
      }
    }
  }

  lemma InsertAfter(x: string, s: seq<string>, r: seq<string>)
    requires Sorted(s) && s != [] && KeyLess(s[0], x)
    requires |r| > 0 && r[0] == s[0] && Sorted(r[1..])
    requires multiset(r[1..]) == multiset(s[1..]) + multiset{x}
    ensures Sorted(r)
  {
    forall i, j | 0 <= i < j < |r|
      ensures !KeyLess(r[j], r[i])
    {
      if i == 0 {
        assert r[j] in multiset(r[1..]) by {
          assert r[j] == r[1..][j - 1];
        }
        if r[j] == x {
          KeyOrder(x, s[0], x);
          KeyOrder(s[0], x, s[0]);
        } else {
          assert r[j] in multiset(s[1..]);
          var k :| 1 <= k < |s| && s[k] == r[j];
          assert !KeyLess(s[k], s[0]);
        }
      }
    }
  }

  /** `Array.prototype.sort` with the default comparison: sorted, and a permutation. */
  function SortNames(names: seq<string>): (r: seq<string>)
    ensures Sorted(r)
    ensures multiset(r) == multiset(names)
  {
    if names == [] then []
    else
      assert names == [names[0]] + names[1..];
      Insert(names[0], SortNames(names[1..]))
  }

  /** A sorted arrangement of a multiset of strings is unique. */
  lemma {:induction false} SortedUnique(s: seq<string>, t: seq<string>)
    requires Sorted(s) && Sorted(t) && multiset(s) == multiset(t)
    ensures s == t
  {
    if s == [] {
      assert |multiset(t)| == 0;
    } else {
      assert |t| == |s| by {
        assert |multiset(s)| == |s| && |multiset(t)| == |t|;
      }
      SameFirst(s, t);
      var s', t' := s[1..], t[1..];
      assert s == [s[0]] + s' && t == [t[0]] + t';
      assert multiset(s') == multiset(s) - multiset{s[0]};
      assert multiset(t') == multiset(t) - multiset{t[0]};
      SortedUnique(s', t');
    }
  }

  /** Two sorted arrangements of one multiset start with the same string. */
  lemma SameFirst(s: seq<string>, t: seq<string>)
    requires Sorted(s) && Sorted(t) && multiset(s) == multiset(t) && s != [] && t != []
    ensures s[0] == t[0]
  {
    assert s[0] in multiset(t);
    var j :| 0 <= j < |t| && t[j] == s[0];
    assert t[0] in multiset(s);
    var i :| 0 <= i < |s| && s[i] == t[0];
    KeyOrder(s[0], t[0], s[0]);
    KeyOrder(t[0], s[0], t[0]);
    assert !KeyLess(s[0], t[0]) by {
      if j > 0 {
        assert !KeyLess(t[j], t[0]);
      }
    }
    assert !KeyLess(t[0], s[0]) by {
      if i > 0 {
        assert !KeyLess(s[i], s[0]);
      }
    }
  }

  // ---------------------------------------------------------------------------------------
  // Normalisation
  // ---------------------------------------------------------------------------------------

  /** `Object.keys(params)`. */
  function Names(params: seq<Member>): (r: seq<string>)
    ensures |r| == |params|
    ensures forall i :: 0 <= i < |params| ==> r[i] == params[i].name
  {
    if params == [] then [] else [params[0].name] + Names(params[1..])
  }

  predicate DistinctNames(params: seq<Member>)
  {
    forall i, j :: 0 <= i < j < |params| ==> params[i].name != params[j].name
  }

  /** `params[name]`: the value of the property with that name (`null` if none, which the hash never asks for). */
  function Lookup(params: seq<Member>, name: string): (v: Json)
    ensures DistinctNames(params) ==> forall i :: 0 <= i < |params| && params[i].name == name ==> v == params[i].value
  {
    if params == [] then JNull
    else if params[0].name == name then params[0].value
    else Lookup(params[1..], name)
  }

  /** `${name}=${JSON.stringify(params[name])}` for each name, in the given order. */
  function Fragments(params: seq<Member>, names: seq<string>): (r: seq<string>)
    ensures |r| == |names|
  {
    if names == [] then []
    else [names[0] + "=" + Stringify(Lookup(params, names[0]))] + Fragments(params, names[1..])
  }

  /** `.join('&')`. */
  function Join(parts: seq<string>): string
  {
    if parts == [] then ""
    else if |parts| == 1 then parts[0]
    else parts[0] + "&" + Join(parts[1..])
  }

  /** The text that is hashed. */
  function Normalized(params: seq<Member>): string
  {
    Join(Fragments(params, SortNames(Names(params))))
  }

  // ---------------------------------------------------------------------------------------
  // 32-bit arithmetic
  // ---------------------------------------------------------------------------------------

  const TWO_31: int := 0x8000_0000
  const TWO_32: int := 0x1_0000_0000

  /** ECMAScript ToInt32: the integer congruent to `x` modulo 2^32 in [-2^31, 2^31). */
  function ToInt32(x: int): (r: int)
    ensures -TWO_31 <= r < TWO_31
  {
    (x + TWO_31) % TWO_32 - TWO_31
  }

  /** ToInt32 keeps the residue modulo 2^32, and it is the identity on the signed 32-bit range. */
  lemma ToInt32Residue(x: int)
    ensures (ToInt32(x) - x) % TWO_32 == 0
    ensures -TWO_31 <= x < TWO_31 ==> ToInt32(x) == x
  {
  }

  /** `hash << 5` on a number: ToInt32 of the operand, shifted, read back as signed 32-bit. */
  function ShiftLeft5(h: int): (r: int)
    ensures -TWO_31 <= r < TWO_31
  {
    ToInt32(ToInt32(h) * 32)
  }

  /** One round of the loop body: `hash = ((hash << 5) - hash) + char; hash = hash & hash`. */
  function Step(h: int, unit: int): (r: int)
    ensures -TWO_31 <= r < TWO_31
  {
    ToInt32(ShiftLeft5(h) - h + unit)
  }

  /** The accumulator after the loop has consumed the first `n` code units, starting from 0. */
  function HashUnits(units: seq<int>, n: nat): (h: int)
    requires n <= |units|
    ensures -TWO_31 <= h < TWO_31
  {
    if n == 0 then 0 else Step(HashUnits(units, n - 1), units[n - 1])
  }

  /** Two integers with the same residue modulo 2^32 have the same ToInt32. */
  lemma ToInt32Congruent(x: int, y: int)
    requires (x - y) % TWO_32 == 0
    ensures ToInt32(x) == ToInt32(y)
  {
    var k := (x - y) / TWO_32;
    assert x == y + k * TWO_32;
    ModShift(y + TWO_31, k);
  }

  lemma ModShift(a: int, k: int)
    ensures (a + k * TWO_32) % TWO_32 == a % TWO_32
  {
  }

  /** Each round multiplies by 31 and adds the code unit, modulo 2^32. */
  lemma StepIsTimes31(h: int, unit: int)
    requires -TWO_31 <= h < TWO_31
    ensures Step(h, unit) == ToInt32(31 * h + unit)
  {
    var s := ToInt32(h * 32);
    ToInt32Residue(h);
    ToInt32Residue(h * 32);
    assert (s - h * 32) % TWO_32 == 0;
    assert (s - h + unit) - (31 * h + unit) == s - h * 32;
    ToInt32Congruent(s - h + unit, 31 * h + unit);
  }

  /** The spec of `createSearchHash`: the absolute value of the hash, in base 36. */
  function HashOf(params: seq<Member>): string
  {
    HashText(Normalized(params))
  }

  /** `Math.abs(hash).toString(36)` for the hash of `text`. */
  function HashText(text: string): string
  {
    var units := Utf16(text);
    var h := HashUnits(units, |units|);
    Radix(if h < 0 then -h else h, 36)
  }

  method CreateSearchHash(params: seq<Member>) returns (key: string)
    ensures key == HashOf(params)
    ensures 1 <= |key| <= 6 && AllDigits(key, 36)
  {
    var normalized := Normalized(params);
    var hash := HashCodeUnits(Utf16(normalized));
    var magnitude := if hash < 0 then -hash else hash;
    key := Radix(magnitude, 36);
    HashTextOf(normalized, hash);
    HashLength(params);
  }

  /** The loop of `createSearchHash` over the code units of the normalised text. */
  method HashCodeUnits(units: seq<int>) returns (hash: int)
    ensures hash == HashUnits(units, |units|)
  {
    hash := 0;
    var i := 0;
    while i < |units|
      invariant 0 <= i <= |units|
      invariant hash == HashUnits(units, i)
    {
      var code := units[i];
      hash := ShiftLeft5(hash) - hash + code;
      hash := ToInt32(hash);
      i := i + 1;
    }
  }

  /** The key of a text is the magnitude of its accumulated hash, in base 36. */
  lemma HashTextOf(text: string, h: int)
    requires h == HashUnits(Utf16(text), |Utf16(text)|)
    ensures HashText(text) == Radix(if h < 0 then -h else h, 36)
  {
  }

  /** The key is one to six base-36 digits: a 32-bit magnitude is below 36^6. */
  lemma HashLength(params: seq<Member>)
    ensures 1 <= |HashOf(params)| <= 6
    ensures AllDigits(HashOf(params), 36)
  {
    var units := Utf16(Normalized(params));
    var h := HashUnits(units, |units|);
    var m := if h < 0 then -h else h;
    assert Power(36, 6) == 2176782336 by {
      assert Power(36, 0) == 1;
      assert Power(36, 1) == 36;
      assert Power(36, 2) == 1296;
      assert Power(36, 3) == 46656;
      assert Power(36, 4) == 1679616;
      assert Power(36, 5) == 60466176;
    }
    RadixLength(m, 36, 6);
  }

  /** No parameters: nothing is hashed and the key is "0". */
  lemma EmptyParams()
    ensures HashOf([]) == "0"
  {
    assert Normalized([]) == "";
  }

  // ---------------------------------------------------------------------------------------
  // Independence from the order of the parameters
  // ---------------------------------------------------------------------------------------

  /** Names that occur once occur once in the multiset of names. */
  lemma {:induction false} DistinctMultiset(params: seq<Member>, x: string)
    requires DistinctNames(params)
    ensures multiset(Names(params))[x] == if x in Names(params) then 1 else 0
  {
    if params != [] {
      var rest := params[1..];
      assert DistinctNames(rest);
      DistinctMultiset(rest, x);
      assert Names(params) == [params[0].name] + Names(rest);
      if x == params[0].name {
        assert x !in Names(rest);
      }
    }
  }

  /** The fragments depend only on the values looked up. */
  lemma {:induction false} FragmentsAgree(p: seq<Member>, q: seq<Member>, names: seq<string>)
    requires forall i :: 0 <= i < |names| ==> Lookup(p, names[i]) == Lookup(q, names[i])
    ensures Fragments(p, names) == Fragments(q, names)
  {
    if names != [] {
      assert Lookup(p, names[0]) == Lookup(q, names[0]);
      FragmentsAgree(p, q, names[1..]);
    }
  }

  /** Objects with the same properties have the same names, each once. */
  lemma SameNames(p: seq<Member>, q: seq<Member>)
    requires DistinctNames(p) && DistinctNames(q)
    requires forall m :: m in p <==> m in q
    ensures multiset(Names(p)) == multiset(Names(q))
  {
    forall x
      ensures multiset(Names(p))[x] == multiset(Names(q))[x]
    {
      NameCarriesOver(p, q, x);
      NameCarriesOver(q, p, x);
      DistinctMultiset(p, x);
      DistinctMultiset(q, x);
    }
  }

  /** A name of `p` is a name of every object holding the same properties. */
  lemma NameCarriesOver(p: seq<Member>, q: seq<Member>, x: string)
    requires forall m :: m in p ==> m in q
    ensures x in Names(p) ==> x in Names(q)
  {
    if x in Names(p) {
      var i :| 0 <= i < |p| && Names(p)[i] == x;
      assert p[i] in q;
      var j :| 0 <= j < |q| && q[j] == p[i];
      assert Names(q)[j] == x;
    }
  }

  /** Objects with the same properties give the same value for each of their names. */
  lemma SameLookups(p: seq<Member>, q: seq<Member>, names: seq<string>)
    requires DistinctNames(p) && DistinctNames(q)
    requires forall m :: m in p <==> m in q
    requires multiset(names) == multiset(Names(p))
    ensures forall i :: 0 <= i < |names| ==> Lookup(p, names[i]) == Lookup(q, names[i])
  {
    forall i | 0 <= i < |names|
      ensures Lookup(p, names[i]) == Lookup(q, names[i])
    {
      assert names[i] in multiset(Names(p));
      var j :| 0 <= j < |p| && Names(p)[j] == names[i];
      assert p[j] in q;
      var k :| 0 <= k < |q| && q[k] == p[j];
    }
  }

  /**
   * Two objects with the same properties give the same key, whatever order the
   * properties were added in.
   */
  lemma HashOrderIndependent(p: seq<Member>, q: seq<Member>)
    requires DistinctNames(p) && DistinctNames(q)
    requires forall m :: m in p <==> m in q
    ensures HashOf(p) == HashOf(q)
  {
    NormalizedOrderIndependent(p, q);
  }

  lemma NormalizedOrderIndependent(p: seq<Member>, q: seq<Member>)
    requires DistinctNames(p) && DistinctNames(q)
    requires forall m :: m in p <==> m in q
    ensures Normalized(p) == Normalized(q)
  {
    SameNames(p, q);
    var sorted := SortNames(Names(p));
    SortedUnique(sorted, SortNames(Names(q)));
    SameLookups(p, q, sorted);
    FragmentsAgree(p, q, sorted);
  }
}
