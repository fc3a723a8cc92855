/** Small shared vocabulary: an optional value and the array helpers of
    src/core/util (`remove`, `indexOf`) that several modules use. */
module Common {

  /** `undefined`/`null` versus a present value. */
  datatype Option<+T> = None | Some(value: T) {
    function GetOr(default: T): T {
      match this
      case Some(v) => v
      case None => default
    }
  }

  /** A JavaScript value as the reactivity core sees it: primitives compare by
      value, objects and arrays (`Ref`) by identity, and `NaN` is the one value
      that is not `===` to itself. */
  datatype Value = Undefined | Null | Bool(b: bool) | Num(n: int) | NaN | Str(s: string) | Ref(addr: nat)

  /** `isObject` of shared/util: a non-null value of type `object`. */
  predicate IsObject(v: Value) {
    v.Ref?
  }

  /** The strict equality `===`. */
  predicate StrictEquals(a: Value, b: Value) {
    a == b && !a.NaN?
  }

  /** Number of occurrences of `x` in `s`. */
  function Count<T(==)>(s: seq<T>, x: T): nat {
    if s == [] then 0 else (if s[0] == x then 1 else 0) + Count(s[1..], x)
  }

  /** Position of the first occurrence of `x` (JavaScript `indexOf`), or -1. */
  function IndexOf<T(==)>(s: seq<T>, x: T): (r: int)
    ensures -1 <= r < |s|
    ensures r == -1 <==> x !in s
    ensures r >= 0 ==> s[r] == x && x !in s[..r]
  {
    if s == [] then -1
    else if s[0] == x then 0
    else var t := IndexOf(s[1..], x); if t == -1 then -1 else t + 1
  }

  /** `remove(arr, item)` of src/core/util: splice out the first occurrence, if any. */
  function RemoveFirst<T(==)>(s: seq<T>, x: T): seq<T> {
    var i := IndexOf(s, x);
    if i < 0 then s else s[..i] + s[i + 1..]
  }

  /** Splitting a suffix at its head, seen from a prefix `u` already holding it. */
  lemma SuffixStep<T>(ss: seq<T>, i: nat, u: seq<T>)
    requires i < |ss|
    ensures ss[i..] == [ss[i]] + ss[i + 1..] && ss[i..][1..] == ss[i + 1..]
    ensures (u + [ss[i]]) + ss[i + 1..] == u + ss[i..]
  {
    assert ss[i..] == [ss[i]] + ss[i + 1..];
  }

  /** Extending a prefix by one element. */
  lemma PrefixStep<T>(ss: seq<T>, i: nat)
    requires i < |ss|
    ensures ss[..i + 1] == ss[..i] + [ss[i]]
  {
  }

  lemma {:induction false} CountZero<T>(s: seq<T>, x: T)
    ensures Count(s, x) == 0 <==> x !in s
  {
    if s != [] {
      CountZero(s[1..], x);
      assert s == [s[0]] + s[1..];
    }
  }

  lemma {:induction false} CountConcat<T>(a: seq<T>, b: seq<T>, x: T)
    ensures Count(a + b, x) == Count(a, x) + Count(b, x)
  {
    if a == [] {
      assert a + b == b;
    } else {
      assert (a + b)[1..] == a[1..] + b;
      CountConcat(a[1..], b, x);
    }
  }

  /** Removing the first occurrence lowers the count of `x` by one and leaves
      every other element's count alone; with at most one occurrence, `x` is gone. */
  lemma RemoveFirstCount<T>(s: seq<T>, x: T, y: T)
    ensures x in s ==> Count(RemoveFirst(s, x), x) == Count(s, x) - 1
    ensures y != x ==> Count(RemoveFirst(s, x), y) == Count(s, y)
    ensures Count(s, x) <= 1 ==> x !in RemoveFirst(s, x)
  {
    var i := IndexOf(s, x);
    if i >= 0 {
      assert s == s[..i] + ([s[i]] + s[i + 1..]);
      CountConcat(s[..i], [s[i]] + s[i + 1..], x);
      CountConcat([s[i]], s[i + 1..], x);
      CountConcat(s[..i], s[i + 1..], x);
      CountConcat(s[..i], [s[i]] + s[i + 1..], y);
      CountConcat([s[i]], s[i + 1..], y);
      CountConcat(s[..i], s[i + 1..], y);
      assert [s[i]][1..] == [];
      CountZero(RemoveFirst(s, x), x);
    }
  }

  /** Removing never introduces an element. */
  lemma RemoveFirstSubset<T>(s: seq<T>, x: T, y: T)
    requires y in RemoveFirst(s, x)
    ensures y in s
  {
    var i := IndexOf(s, x);
    if i >= 0 {
      var r := RemoveFirst(s, x);
      var k :| 0 <= k < |r| && r[k] == y;
      if k < i { assert s[k] == y; } else { assert s[k + 1] == y; }
    }
  }

  /** Every key of `s` that is not `x` survives, in order. */
  lemma RemoveFirstKeeps<T>(s: seq<T>, x: T, y: T)
    requires y in s && y != x
    ensures y in RemoveFirst(s, x)
  {
    var i := IndexOf(s, x);
    if i >= 0 {
      var k :| 0 <= k < |s| && s[k] == y;
      assert s[k] in s[..i] || s[k] in s[i + 1..] by {
        if k < i { assert s[..i][k] == y; } else { assert k > i; assert s[i + 1..][k - i - 1] == y; }
      }
    }
  }

  /** No element occurs twice. */
  predicate Distinct<T(==)>(s: seq<T>) {
    forall i, j | 0 <= i < j < |s| :: s[i] != s[j]
  }

  /** In a list without repetitions an element occurs at most once. */
  lemma {:induction false} DistinctCount<T>(s: seq<T>, x: T)
    requires Distinct(s)
    ensures Count(s, x) <= 1
  {
    if s != [] {
      assert Distinct(s[1..]) by {
        forall i, j | 0 <= i < j < |s| - 1 ensures s[1..][i] != s[1..][j] {
          assert s[1..][i] == s[i + 1] && s[1..][j] == s[j + 1];
        }
      }
      DistinctCount(s[1..], x);
      if s[0] == x {
        assert x !in s[1..] by {
          forall k | 0 <= k < |s| - 1 ensures s[1..][k] != x { assert s[1..][k] == s[k + 1]; }
        }
        CountZero(s[1..], x);
      }
    }
  }

  /** The names every plain object inherits from `Object.prototype`, which
      the `in` operator and `hasOwn` tell apart. */
  const ObjectPrototypeKeys: set<string> := {
    "constructor", "hasOwnProperty", "isPrototypeOf", "propertyIsEnumerable", "toLocaleString",
    "toString", "valueOf", "__proto__", "__defineGetter__", "__defineSetter__",
    "__lookupGetter__", "__lookupSetter__"}

  function DigitChar(d: nat): char
    requires d < 10
  {
    ['0', '1', '2', '3', '4', '5', '6', '7', '8', '9'][d]
  }

  /** The decimal digits of `n`: the property name of an array index, and
      of a numeric vnode key. */
  function Digits(n: nat): (r: string)
    ensures |r| >= 1 && forall c | c in r :: '0' <= c <= '9'
  {
    if n < 10 then [DigitChar(n)] else Digits(n / 10) + [DigitChar(n % 10)]
  }

  /** Reads a string of decimal digits back as a number. */
  function DigitsValue(s: string): nat
    requires forall c | c in s :: '0' <= c <= '9'
  {
    if s == [] then 0
    else
      var init := s[..|s| - 1];
      assert forall c | c in init :: c in s;
      assert s[|s| - 1] in s;
      10 * DigitsValue(init) + (s[|s| - 1] as int - '0' as int)
  }

  /** The name of an index key denotes that index. */
  lemma {:induction false} DigitsRoundTrip(n: nat)
    ensures DigitsValue(Digits(n)) == n
  {
    if n >= 10 {
      var s := Digits(n);
      assert s[..|s| - 1] == Digits(n / 10);
      DigitsRoundTrip(n / 10);
    }
  }
}
