/** PHP array values and the engine behaviour the library relies on: the
    coercion of decimal-integer strings to integer keys when a string is used
    as an array key, the truthiness of strings, and `array_merge_recursive`. */
module Php {
  import opened Wrappers
  import opened OrderedMap

  /** A PHP array key: an integer or a string that does not spell a canonical integer. */
  datatype Key = IntKey(n: int) | StrKey(s: string)

  /** The PHP values the library handles (floats and objects are not modelled). */
  datatype Value =
    | Null
    | Boolean(b: bool)
    | Integer(i: int)
    | Str(s: string)
    | Arr(entries: seq<(Key, Value)>)

  type PhpArray = seq<(Key, Value)>

  /** PHP's truthiness on strings: exactly "" and "0" are falsy. */
  predicate Falsy(s: string) {
    s == "" || s == "0"
  }

  // ---------------------------------------------------------------------------
  // Integer-string keys
  // ---------------------------------------------------------------------------

  /** PHP_INT_MAX on a 64-bit build. */
  const IntMax: int := 0x7FFF_FFFF_FFFF_FFFF

  predicate IsDigit(c: char) {
    '0' <= c <= '9'
  }

  predicate AllDigits(s: string) {
    forall i :: 0 <= i < |s| ==> IsDigit(s[i])
  }

  function Pow10(n: nat): (p: nat)
    ensures p >= 1
  {
    if n == 0 then 1 else 10 * Pow10(n - 1)
  }

  /** The number a string of decimal digits spells. */
  function DigitsValue(s: string): nat
    requires AllDigits(s)
  {
    if s == [] then 0 else 10 * DigitsValue(s[..|s| - 1]) + (s[|s| - 1] as int - '0' as int)
  }

  /** Digits without a leading zero (the single digit "0" included). */
  predicate Canonical(d: string) {
    |d| >= 1 && AllDigits(d) && (d[0] != '0' || |d| == 1)
  }

  /** The key PHP stores when string `s` is used as an array key: a decimal
      integer without leading zeros (and not "-0") that fits in 64 bits becomes
      an integer key; every other string stays a string key. */
  function KeyOf(s: string): Key
  {
    if |s| >= 2 && s[0] == '-' && s[1] != '0' && Canonical(s[1..]) && DigitsValue(s[1..]) <= IntMax + 1 then
      IntKey(0 - DigitsValue(s[1..]))
    else if Canonical(s) && DigitsValue(s) <= IntMax then
      IntKey(DigitsValue(s))
    else
      StrKey(s)
  }

  lemma {:induction false} DigitsBelow(s: string)
    requires AllDigits(s)
    ensures DigitsValue(s) < Pow10(|s|)
  {
    if s != [] {
      DigitsBelow(s[..|s| - 1]);
    }
  }

  lemma {:induction false} DigitsAtLeast(s: string)
    requires AllDigits(s) && |s| >= 1 && s[0] != '0'
    ensures DigitsValue(s) >= Pow10(|s| - 1)
  {
    if |s| > 1 {
      var p := s[..|s| - 1];
      assert p[0] == s[0];
      DigitsAtLeast(p);
    }
  }

  lemma {:induction false} DigitsSameLength(a: string, b: string)
    requires AllDigits(a) && AllDigits(b) && |a| == |b|
    requires DigitsValue(a) == DigitsValue(b)
    ensures a == b
  {
    if a != [] {
      var n := |a| - 1;
      DigitsSameLength(a[..n], b[..n]);
      assert a == a[..n] + [a[n]];
      assert b == b[..n] + [b[n]];
    }
  }

  /** Canonical digit strings spell distinct numbers. */
  lemma CanonicalInjective(a: string, b: string)
    requires Canonical(a) && Canonical(b)
    requires DigitsValue(a) == DigitsValue(b)
    ensures a == b
  {
    if |a| < |b| {
      PowMonotone(|a|, |b| - 1);
      DigitsBelow(a);
      DigitsAtLeast(b);
    } else if |b| < |a| {
      PowMonotone(|b|, |a| - 1);
      DigitsBelow(b);
      DigitsAtLeast(a);
    }
    DigitsSameLength(a, b);
  }

  lemma {:induction false} PowMonotone(i: nat, j: nat)
    requires i <= j
    ensures Pow10(i) <= Pow10(j)
  {
    if i < j {
      PowMonotone(i, j - 1);
    }
  }

  /** Distinct strings address distinct array entries: the key coercion loses nothing. */
  lemma KeyOfInjective(a: string, b: string)
    ensures KeyOf(a) == KeyOf(b) ==> a == b
  {
    if KeyOf(a) == KeyOf(b) && KeyOf(a).IntKey? {
      var negA := |a| >= 2 && a[0] == '-' && a[1] != '0' && Canonical(a[1..]) && DigitsValue(a[1..]) <= IntMax + 1;
      var negB := |b| >= 2 && b[0] == '-' && b[1] != '0' && Canonical(b[1..]) && DigitsValue(b[1..]) <= IntMax + 1;
      if negA {
        DigitsAtLeast(a[1..]);
      }
      if negB {
        DigitsAtLeast(b[1..]);
      }
      if negA && negB {
        CanonicalInjective(a[1..], b[1..]);
        assert a == [a[0]] + a[1..] && b == [b[0]] + b[1..];
      } else if !negA && !negB {
        CanonicalInjective(a, b);
      }
    }
  }

  /** The decimal spelling of `n`, as PHP prints an integer. */
  function Decimal(n: nat): (d: string)
    ensures |d| >= 1 && AllDigits(d)
  {
    if n < 10 then [('0' as int + n) as char]
    else Decimal(n / 10) + [('0' as int + n % 10) as char]
  }

  /** The spelling is canonical and reads back as `n`. */
  lemma {:induction false} DecimalReadsBack(n: nat)
    ensures Canonical(Decimal(n)) && DigitsValue(Decimal(n)) == n
  {
    var d := Decimal(n);
    if n >= 10 {
      DecimalReadsBack(n / 10);
      assert d[..|d| - 1] == Decimal(n / 10);
      assert d[0] == Decimal(n / 10)[0];
    }
  }

  /** Using an integer's decimal spelling as a key gives the integer key,
      over the whole 64-bit range. */
  lemma DecimalKeysAreIntegers(n: int)
    requires 0 - IntMax - 1 <= n <= IntMax
    ensures n >= 0 ==> KeyOf(Decimal(n)) == IntKey(n)
    ensures n < 0 ==> KeyOf("-" + Decimal(0 - n)) == IntKey(n)
  {
    if n >= 0 {
      DecimalReadsBack(n);
    } else {
      var d := Decimal(0 - n);
      DecimalReadsBack(0 - n);
      var s := "-" + d;
      assert s[1..] == d;
      assert s[1] == d[0];
    }
  }

  /** Strings that spell no canonical integer keep their text as the key. */
  lemma KeyOfExamples()
    ensures KeyOf("12") == IntKey(12)
    ensures KeyOf("012") == StrKey("012")
    ensures KeyOf("-0") == StrKey("-0")
    ensures KeyOf("1.5") == StrKey("1.5")
    ensures KeyOf("email") == StrKey("email")
  {
    assert DigitsValue("12") == 12 by {
      assert "12"[..1] == "1";
    }
    assert !AllDigits("1.5") by {
      assert "1.5"[1] == '.';
    }
    assert !AllDigits("email") by {
      assert "email"[0] == 'e';
    }
  }

  // ---------------------------------------------------------------------------
  // array_merge_recursive
  // ---------------------------------------------------------------------------

  /** The index `$a[] = v` assigns: one past the largest integer key, and 0
      when there is none or all of them are negative. */
  function NextIndex(a: PhpArray): (n: nat)
    ensures forall i :: 0 <= i < |a| && a[i].0.IntKey? ==> a[i].0.n < n
  {
    if a == [] then 0
    else
      var rest := NextIndex(a[1..]);
      assert forall i :: 1 <= i < |a| ==> a[i] == a[1..][i - 1];
      match a[0].0
      case IntKey(i) => if i + 1 > rest then i + 1 else rest
      case StrKey(_) => rest
  }

  /** `$a[] = v`. */
  function Push(a: PhpArray, v: Value): PhpArray {
    a + [(IntKey(NextIndex(a)), v)]
  }

  /** PHP's `convert_to_array` on the destination entry: an array stays as it
      is, any other value becomes a one-element list. */
  function AsList(v: Value): PhpArray {
    match v
    case Arr(a) => a
    case _ => [(IntKey(0), v)]
  }

  /** A measure that shrinks from an array to each value inside it. */
  function Size(v: Value): (n: nat)
    ensures n >= 1
  {
    match v
    case Arr(_) => 1 + EntriesSize(v, 0)
    case _ => 1
  }

  /** The sizes of the values of `v`'s entries from position `i` on. */
  function EntriesSize(v: Value, i: nat): nat
    requires v.Arr? && i <= |v.entries|
    decreases v, |v.entries| - i
  {
    if i == |v.entries| then 0
    else
      assert v.entries[i] in v.entries;
      Size(v.entries[i].1) + EntriesSize(v, i + 1)
  }

  function ArraySize(a: PhpArray): nat {
    EntriesSize(Arr(a), 0)
  }

  lemma {:induction false} EntriesShift(a: PhpArray, i: nat)
    requires 1 <= i <= |a|
    ensures EntriesSize(Arr(a), i) == EntriesSize(Arr(a[1..]), i - 1)
    decreases |a| - i
  {
    if i < |a| {
      EntriesShift(a, i + 1);
      assert a[1..][i - 1] == a[i];
    }
  }

  lemma ArraySizeCons(a: PhpArray)
    requires a != []
    ensures ArraySize(a) == Size(a[0].1) + ArraySize(a[1..])
  {
    EntriesShift(a, 1);
  }

  /** The value a string key ends up with when both layers hold it: two
      arrays merge recursively, otherwise the later value is appended to the
      earlier one, turned into a list. */
  function Combine(earlier: Value, later: Value): Value
    decreases Size(later), 1
  {
    match later
    case Arr(s) => Arr(MergeInto(AsList(earlier), s))
    case _ => Arr(Push(AsList(earlier), later))
  }

  /** One entry of the source array merged into `dest`: an integer key is
      appended with a fresh index, a new string key is appended, a present
      string key is combined in place. */
  function MergeEntry(dest: PhpArray, k: Key, v: Value): PhpArray
    decreases Size(v), 2
  {
    match k
    case IntKey(_) => Push(dest, v)
    case StrKey(_) =>
      match Find(dest, k)
      case None => Put(dest, k, v)
      case Some(d) => Put(dest, k, Combine(d, v))
  }

  /** The merge of `src` into `dest`, entry by entry in `src`'s order. */
  function MergeInto(dest: PhpArray, src: PhpArray): PhpArray
    decreases ArraySize(src), 3
  {
    if src == [] then dest
    else
      ArraySizeCons(src);
      MergeInto(MergeEntry(dest, src[0].0, src[0].1), src[1..])
  }

  /** `array_merge_recursive($a, $b)`. The first argument is copied with its
      integer keys renumbered from 0, which is what merging it into an empty
      array does. */
  function ArrayMergeRecursive(a: PhpArray, b: PhpArray): PhpArray {
    MergeInto(MergeInto([], a), b)
  }

  // ---------------------------------------------------------------------------
  // What the merge keeps
  // ---------------------------------------------------------------------------

  /** The value a string key holds after a merge, given what each layer holds. */
  function Merged(earlier: Option<Value>, later: Option<Value>): Option<Value> {
    match later
    case None => earlier
    case Some(v) =>
      match earlier
      case None => Some(v)
      case Some(d) => Some(Combine(d, v))
  }

  /** The values stored under integer keys, in order: the list part of an array. */
  function ListValues(a: PhpArray): seq<Value> {
    if a == [] then [] else (if a[0].0.IntKey? then [a[0].1] else []) + ListValues(a[1..])
  }

  lemma {:induction false} ListValuesAppend(a: PhpArray, b: PhpArray)
    ensures ListValues(a + b) == ListValues(a) + ListValues(b)
  {
    if a == [] {
      assert a + b == b;
    } else {
      assert (a + b)[1..] == a[1..] + b;
      ListValuesAppend(a[1..], b);
      var head := if a[0].0.IntKey? then [a[0].1] else [];
      assert head + (ListValues(a[1..]) + ListValues(b)) == (head + ListValues(a[1..])) + ListValues(b);
    }
  }

  lemma {:induction false} ListValuesUpdate(a: PhpArray, i: nat, e: (Key, Value))
    requires i < |a| && a[i].0.StrKey? && e.0.StrKey?
    ensures ListValues(a[i := e]) == ListValues(a)
  {
    if i > 0 {
      assert a[i := e][1..] == a[1..][i - 1 := e];
      ListValuesUpdate(a[1..], i - 1, e);
    }
  }

  /** Assigning to a string key leaves the list part alone. */
  lemma PutStringKeepsList(a: PhpArray, x: string, v: Value)
    ensures ListValues(Put(a, StrKey(x), v)) == ListValues(a)
  {
    if HasKey(a, StrKey(x)) {
      ListValuesUpdate(a, IndexOf(a, StrKey(x)), (StrKey(x), v));
    } else {
      ListValuesAppend(a, [(StrKey(x), v)]);
    }
  }

  /** `Push` adds a key no entry holds. */
  lemma PushKeepsUnique(a: PhpArray, v: Value)
    requires UniqueKeys(a)
    ensures UniqueKeys(Push(a, v))
  {
    var n := NextIndex(a);
    assert forall i :: 0 <= i < |a| ==> a[i].0 != IntKey(n);
  }

  /** `Push` appends one integer-keyed entry after the existing ones. */
  lemma PushFacts(dest: PhpArray, v: Value)
    ensures |Push(dest, v)| >= |dest|
    ensures Keys(Push(dest, v))[..|dest|] == Keys(dest)
    ensures ListValues(Push(dest, v)) == ListValues(dest) + [v]
    ensures UniqueKeys(dest) ==> UniqueKeys(Push(dest, v))
  {
    var e := [(IntKey(NextIndex(dest)), v)];
    ListValuesAppend(dest, e);
    assert ListValues(e) == [v];
    assert Keys(Push(dest, v)) == Keys(dest) + [IntKey(NextIndex(dest))];
    if UniqueKeys(dest) {
      PushKeepsUnique(dest, v);
    }
  }

  /** Assigning under a string key keeps the keys in place and the list part as it is. */
  lemma PutStringFacts(dest: PhpArray, x: string, w: Value)
    ensures |Put(dest, StrKey(x), w)| >= |dest|
    ensures Keys(Put(dest, StrKey(x), w))[..|dest|] == Keys(dest)
    ensures ListValues(Put(dest, StrKey(x), w)) == ListValues(dest)
    ensures UniqueKeys(dest) ==> UniqueKeys(Put(dest, StrKey(x), w))
  {
    PutStringKeepsList(dest, x, w);
    if !HasKey(dest, StrKey(x)) {
      PrefixOfAppend(Keys(dest), [StrKey(x)]);
    }
  }

  lemma PrefixOfAppend<T>(a: seq<T>, b: seq<T>)
    ensures (a + b)[..|a|] == a
  {
  }

  /** Each merged entry keeps `dest`'s keys in place and its list part in front. */
  lemma MergeEntryFacts(dest: PhpArray, k: Key, v: Value)
    ensures |MergeEntry(dest, k, v)| >= |dest|
    ensures Keys(MergeEntry(dest, k, v))[..|dest|] == Keys(dest)
    ensures ListValues(MergeEntry(dest, k, v)) == ListValues(dest) + (if k.IntKey? then [v] else [])
    ensures UniqueKeys(dest) ==> UniqueKeys(MergeEntry(dest, k, v))
  {
    match k
    case IntKey(_) =>
      PushFacts(dest, v);
    case StrKey(x) =>
      MergeEntryString(dest, x, v);
      assert ListValues(dest) + [] == ListValues(dest);
  }

  lemma MergeEntryString(dest: PhpArray, x: string, v: Value)
    ensures |MergeEntry(dest, StrKey(x), v)| >= |dest|
    ensures Keys(MergeEntry(dest, StrKey(x), v))[..|dest|] == Keys(dest)
    ensures ListValues(MergeEntry(dest, StrKey(x), v)) == ListValues(dest)
    ensures UniqueKeys(dest) ==> UniqueKeys(MergeEntry(dest, StrKey(x), v))
  {
    var w := match Find(dest, StrKey(x)) case None => v case Some(d) => Combine(d, v);
    assert MergeEntry(dest, StrKey(x), v) == Put(dest, StrKey(x), w);
    PutStringFacts(dest, x, w);
  }

  lemma PrefixOfPrefix<T>(s: seq<T>, a: nat, b: nat)
    requires a <= b <= |s|
    ensures s[..b][..a] == s[..a]
  {
  }

  /** A merge keeps every key of `dest` at its position and appends after them. */
  lemma {:induction false} MergeKeepsDest(dest: PhpArray, src: PhpArray)
    ensures |MergeInto(dest, src)| >= |dest|
    ensures Keys(MergeInto(dest, src))[..|dest|] == Keys(dest)
    ensures UniqueKeys(dest) ==> UniqueKeys(MergeInto(dest, src))
    decreases |src|
  {
    if src != [] {
      var d1 := MergeEntry(dest, src[0].0, src[0].1);
      MergeIntoCons(dest, src);
      MergeEntryFacts(dest, src[0].0, src[0].1);
      MergeKeepsDest(d1, src[1..]);
      PrefixOfPrefix(Keys(MergeInto(d1, src[1..])), |dest|, |d1|);
    }
  }

  /** The list parts of the two layers are concatenated, earlier layer first. */
  lemma {:induction false} MergeListValues(dest: PhpArray, src: PhpArray)
    ensures ListValues(MergeInto(dest, src)) == ListValues(dest) + ListValues(src)
    decreases |src|
  {
    if src != [] {
      var k := src[0].0;
      var d1 := MergeEntry(dest, k, src[0].1);
      MergeIntoCons(dest, src);
      MergeEntryFacts(dest, k, src[0].1);
      MergeListValues(d1, src[1..]);
      var head := if k.IntKey? then [src[0].1] else [];
      assert ListValues(src) == head + ListValues(src[1..]);
      AppendAssoc(ListValues(dest), head, ListValues(src[1..]));
    }
  }

  /** Every string key of either layer survives the merge with the value
      `Merged` gives it; no string key appears that neither layer has. */
  lemma {:induction false} MergeStringKey(dest: PhpArray, src: PhpArray, x: string)
    requires UniqueKeys(src)
    ensures Find(MergeInto(dest, src), StrKey(x)) == Merged(Find(dest, StrKey(x)), Find(src, StrKey(x)))
    decreases |src|
  {
    if src != [] {
      var k := src[0].0;
      var v := src[0].1;
      var d1 := MergeEntry(dest, k, v);
      TailUnique(src);
      MergeStringKey(d1, src[1..], x);
      FindCons(src, StrKey(x));
      match k
      case IntKey(_) =>
        FindAppend(dest, IntKey(NextIndex(dest)), v, StrKey(x));
      case StrKey(_) =>
    }
  }

  /** Combining two values keeps the earlier value's list part in front of the
      later one's; `AsList` turns a lone value into a one-element list. */
  lemma CombineListOrder(earlier: Value, later: Value)
    ensures ListValues(Combine(earlier, later).entries) == ListValues(AsList(earlier)) + ListValues(AsList(later))
  {
    match later
    case Arr(s) =>
      MergeListValues(AsList(earlier), s);
    case _ =>
      var a := AsList(earlier);
      ListValuesAppend(a, [(IntKey(NextIndex(a)), later)]);
  }

  /** `array_merge_recursive` on string keys: each key of either argument is
      present in the result, holding `Merged` of the two arguments' values. */
  lemma ArrayMergeStringKey(a: PhpArray, b: PhpArray, x: string)
    requires UniqueKeys(a) && UniqueKeys(b)
    ensures Find(ArrayMergeRecursive(a, b), StrKey(x)) == Merged(Find(a, StrKey(x)), Find(b, StrKey(x)))
  {
    MergeStringKey([], a, x);
    MergeStringKey(MergeInto([], a), b, x);
  }

  /** `array_merge_recursive` concatenates the list parts of its arguments and
      yields an array with unique keys. */
  lemma ArrayMergeLists(a: PhpArray, b: PhpArray)
    ensures ListValues(ArrayMergeRecursive(a, b)) == ListValues(a) + ListValues(b)
    ensures UniqueKeys(ArrayMergeRecursive(a, b))
  {
    var a1 := MergeInto([], a);
    MergeListValues([], a);
    assert ListValues(a1) == ListValues(a);
    MergeListValues(a1, b);
    MergeKeepsDest([], a);
    MergeKeepsDest(a1, b);
  }

  lemma MergeEntryNewString(dest: PhpArray, k: Key, v: Value)
    requires k.StrKey? && !HasKey(dest, k)
    ensures MergeEntry(dest, k, v) == dest + [(k, v)]
  {
  }

  lemma MergeIntoCons(dest: PhpArray, src: PhpArray)
    requires src != []
    ensures MergeInto(dest, src) == MergeInto(MergeEntry(dest, src[0].0, src[0].1), src[1..])
  {
  }

  lemma AppendAssoc<T>(a: seq<T>, b: seq<T>, c: seq<T>)
    ensures (a + b) + c == a + (b + c)
  {
  }

  lemma SplitFirst<T>(a: seq<T>, b: seq<T>)
    requires b != []
    ensures (a + [b[0]]) + b[1..] == a + b
  {
    assert [b[0]] + b[1..] == b;
  }

  /** Every entry of `src` has a string key that `dest` lacks. */
  predicate NewStrings(dest: PhpArray, src: PhpArray) {
    forall i :: 0 <= i < |src| ==> src[i].0.StrKey? && !HasKey(dest, src[i].0)
  }

  lemma NewStringsTail(dest: PhpArray, src: PhpArray)
    requires UniqueKeys(src) && src != [] && NewStrings(dest, src)
    ensures NewStrings(dest + [src[0]], src[1..])
  {
    var d1 := dest + [src[0]];
    assert Keys(d1) == Keys(dest) + [src[0].0];
    forall i | 0 <= i < |src[1..]| ensures src[1..][i].0.StrKey? && !HasKey(d1, src[1..][i].0) {
      assert src[1..][i] == src[i + 1];
    }
  }

  /** Entries under string keys the destination lacks are appended as they
      are, in order: the merge of such a layer is plain concatenation. */
  lemma {:induction false} MergeAppendsNewStrings(dest: PhpArray, src: PhpArray)
    requires UniqueKeys(src) && NewStrings(dest, src)
    ensures MergeInto(dest, src) == dest + src
    decreases |src|
  {
    if src != [] {
      var d1 := dest + [src[0]];
      MergeEntryNewString(dest, src[0].0, src[0].1);
      MergeIntoCons(dest, src);
      TailUnique(src);
      NewStringsTail(dest, src);
      MergeAppendsNewStrings(d1, src[1..]);
      SplitFirst(dest, src);
    }
  }
}
