/** version/version.go: comparing dotted versions. */
module VersionOrder {
  import opened Text

  /** What a component counts as; a version is followed by endless `End`s. */
  datatype Key = Word(text: string) | End | Number(value: int)

  function KeyOf(component: string): Key {
    var n := Atoi(component);
    if n.Some? then Number(n.value) else Word(component)
  }

  function KeyAt(version: seq<string>, i: nat): Key {
    if i < |version| then KeyOf(version[i]) else End
  }

  /** Words, by their bytes, before the end, before numbers, by their value. */
  predicate Before(a: Key, b: Key) {
    match (a, b)
    case (Word(x), Word(y)) => Less(x, y)
    case (Number(x), Number(y)) => x < y
    case (Word(_), _) => true
    case (End, Number(_)) => true
    case _ => false
  }

  function CompareFrom(l: seq<string>, r: seq<string>, i: nat): int
    decreases |l| + |r| - i
  {
    if i >= |l| && i >= |r| then 0
    else if Before(KeyAt(l, i), KeyAt(r, i)) then -1
    else if Before(KeyAt(r, i), KeyAt(l, i)) then 1
    else CompareFrom(l, r, i + 1)
  }

  function Compare(left: string, right: string): int {
    CompareFrom(Split(left, '.'), Split(right, '.'), 0)
  }

  method CompareVersion(leftVersion: string, rightVersion: string) returns (result: int)
    ensures result == Compare(leftVersion, rightVersion)
  {
    hide Atoi, Less, Split;
    var left, right := Split(leftVersion, '.'), Split(rightVersion, '.');
    var pos := |left|;
    if pos > |right| { pos := |right|; }
    for i := 0 to pos
      invariant CompareFrom(left, right, i) == Compare(leftVersion, rightVersion)
    {
      LessTotal(left[i], right[i]);
      var l, r := Atoi(left[i]), Atoi(right[i]);
      if l.None? && r.None? {
        if Less(right[i], left[i]) { return 1; }
        else if Less(left[i], right[i]) { return -1; }
        else { continue; }
      } else if l.None? {
        return -1;
      } else if r.None? {
        return 1;
      }
      if l.value > r.value { return 1; }
      else if l.value < r.value { return -1; }
    }
    if |left| > |right| {
      if Atoi(left[pos]).Some? { return 1; }
      return -1;
    } else if |left| < |right| {
      if Atoi(right[pos]).Some? { return -1; }
      return 1;
    }
    return 0;
  }

  // ------------------------------------------------------------- the order

  lemma BeforeIsStrict(a: Key, b: Key, c: Key)
    ensures !(Before(a, b) && Before(b, a)) && !Before(a, a)
    ensures !Before(a, b) && !Before(b, a) <==> a == b
    ensures Before(a, b) && Before(b, c) ==> Before(a, c)
  {
    match (a, b)
    case (Word(x), Word(y)) =>
      LessTotal(x, y);
      LessTotal(x, x);
      if c.Word? && Less(x, y) && Less(y, c.text) { LessTransitive(x, y, c.text); }
    case (Word(x), _) => LessTotal(x, x);
    case _ =>
  }

  /** Both versions have the same components up to `n`. */
  ghost predicate Agree(l: seq<string>, r: seq<string>, n: nat) {
    forall i: nat | i < n :: KeyAt(l, i) == KeyAt(r, i)
  }

  /** `l` has the smaller component at the first place where the two differ. */
  ghost predicate Precedes(l: seq<string>, r: seq<string>) {
    exists n: nat :: Agree(l, r, n) && Before(KeyAt(l, n), KeyAt(r, n))
  }

  lemma {:induction false} CompareIsLexicographic(l: seq<string>, r: seq<string>, i: nat)
    requires Agree(l, r, i)
    ensures CompareFrom(l, r, i) in {-1, 0, 1}
    ensures CompareFrom(l, r, i) == -1 <==> Precedes(l, r)
    ensures CompareFrom(l, r, i) == 1 <==> Precedes(r, l)
    ensures CompareFrom(l, r, i) == 0 <==> forall n: nat :: Agree(l, r, n)
    decreases |l| + |r| - i
  {
    hide KeyOf;
    BeforeIsStrict(KeyAt(l, i), KeyAt(r, i), End);
    if i >= |l| && i >= |r| {
      assert forall n: nat :: KeyAt(l, n) == KeyAt(r, n);
      forall n: nat ensures !Before(KeyAt(l, n), KeyAt(r, n)) && !Before(KeyAt(r, n), KeyAt(l, n)) {
        BeforeIsStrict(KeyAt(l, n), KeyAt(r, n), End);
      }
    } else if KeyAt(l, i) == KeyAt(r, i) {
      CompareIsLexicographic(l, r, i + 1);
    } else {
      assert Agree(r, l, i);
      assert !Agree(l, r, i + 1);
      OneWay(l, r, i);
    }
  }

  /** Only the first difference decides. */
  lemma OneWay(l: seq<string>, r: seq<string>, i: nat)
    requires Agree(l, r, i) && KeyAt(l, i) != KeyAt(r, i)
    ensures Precedes(l, r) <==> Before(KeyAt(l, i), KeyAt(r, i))
    ensures Precedes(r, l) <==> Before(KeyAt(r, i), KeyAt(l, i))
  {
    OnlyAt(l, r, i);
    assert Agree(r, l, i) by { hide KeyAt, Before; }
    OnlyAt(r, l, i);
  }

  lemma OnlyAt(l: seq<string>, r: seq<string>, i: nat)
    requires Agree(l, r, i) && KeyAt(l, i) != KeyAt(r, i)
    ensures Precedes(l, r) <==> Before(KeyAt(l, i), KeyAt(r, i))
  {
    hide KeyAt, Before;
    if Precedes(l, r) {
      var n: nat :| Agree(l, r, n) && Before(KeyAt(l, n), KeyAt(r, n));
      BeforeIsStrict(KeyAt(l, n), KeyAt(r, n), End);
      assert n == i;
    }
  }

  /** `CompareVersion` is the lexicographic order of the components, with an end marker. */
  lemma CompareMeans(left: string, right: string)
    ensures var l, r, c := Split(left, '.'), Split(right, '.'), Compare(left, right);
            && c in {-1, 0, 1}
            && (c == -1 <==> Precedes(l, r))
            && (c == 1 <==> Precedes(r, l))
            && (c == 0 <==> forall n: nat :: KeyAt(l, n) == KeyAt(r, n))
  {
    var l, r := Split(left, '.'), Split(right, '.');
    CompareIsLexicographic(l, r, 0);
    if Compare(left, right) == 0 {
      forall n: nat ensures KeyAt(l, n) == KeyAt(r, n) { assert Agree(l, r, n + 1); }
    }
  }

  /** A component without a dot. */
  predicate IsPart(x: string) {
    '.' !in x
  }

  /** How two components that are not alike compare: numbers by their value, words by their
      bytes, and words before numbers. */
  ghost predicate Smaller(x: string, y: string) {
    match (Atoi(x), Atoi(y))
    case (Some(m), Some(n)) => m < n
    case (None, None) => Less(x, y)
    case (None, Some(_)) => true
    case (Some(_), None) => false
  }

  /** After what two versions have in common, the smaller component makes the smaller version,
      whatever follows. */
  lemma FirstDifference(common: seq<string>, x: string, y: string, a: seq<string>, b: seq<string>)
    requires forall part | part in common + [x] + a + [y] + b :: IsPart(part)
    requires Smaller(x, y)
    ensures Compare(Join(common + [x] + a, '.'), Join(common + [y] + b, '.')) == -1
    ensures Compare(Join(common + [y] + b, '.'), Join(common + [x] + a, '.')) == 1
  {
    hide Atoi, Less, Join, Split, Compare;
    var l, r := common + [x] + a, common + [y] + b;
    SplitParts(l);
    SplitParts(r);
    assert Agree(l, r, |common|) && l[|common|] == x && r[|common|] == y;
    assert Precedes(l, r);
    CompareMeans(Join(l, '.'), Join(r, '.'));
    CompareMeans(Join(r, '.'), Join(l, '.'));
  }

  /** A version that goes on with a number comes after the one it continues, with a word
      before it: 1.2 comes before 1.2.1 and after 1.2.rc1. */
  lemma LongerVersion(common: seq<string>, y: string, b: seq<string>)
    requires common != [] && forall part | part in common + [y] + b :: IsPart(part)
    ensures var c := Compare(Join(common, '.'), Join(common + [y] + b, '.'));
            if Atoi(y).Some? then c == -1 else c == 1
  {
    hide Atoi, Less, Join, Split, Compare;
    var r := common + [y] + b;
    assert forall part | part in common :: part in r;
    SplitParts(common);
    SplitParts(r);
    assert Agree(common, r, |common|) && r[|common|] == y;
    assert Agree(r, common, |common|);
    CompareMeans(Join(common, '.'), Join(r, '.'));
    assert if Atoi(y).Some? then Precedes(common, r) else Precedes(r, common);
  }

  lemma SplitParts(parts: seq<string>)
    requires parts != [] && forall part | part in parts :: IsPart(part)
    ensures Split(Join(parts, '.'), '.') == parts
  {
    hide Split, Join;
    forall k | 0 <= k < |parts| ensures '.' !in parts[k] { assert IsPart(parts[k]); }
    SplitJoin(parts, '.');
  }

  /** A total preorder: reflexive, with opposite signs the other way round, and transitive. */
  lemma CompareIsPreorder(a: string, b: string, c: string)
    ensures Compare(a, a) == 0
    ensures Compare(a, b) == -Compare(b, a)
    ensures Compare(a, b) <= 0 && Compare(b, c) <= 0 ==> Compare(a, c) <= 0
    ensures Compare(a, b) <= 0 && Compare(b, c) <= 0 && (Compare(a, b) < 0 || Compare(b, c) < 0) ==> Compare(a, c) < 0
  {
    hide KeyAt, CompareFrom, Compare, Before;
    CompareMeans(a, a);
    CompareMeans(a, b);
    CompareMeans(b, a);
    CompareMeans(b, c);
    CompareMeans(a, c);
    var x, y, z := Split(a, '.'), Split(b, '.'), Split(c, '.');
    if Compare(a, b) < 0 && Compare(b, c) < 0 {
      PrecedesTransitive(x, y, z);
    } else if Compare(a, b) < 0 && Compare(b, c) == 0 {
      PrecedesSame(x, y, x, z);
    } else if Compare(a, b) == 0 && Compare(b, c) < 0 {
      PrecedesSame(y, z, x, z);
    }
  }

  lemma PrecedesSame(l: seq<string>, r: seq<string>, l': seq<string>, r': seq<string>)
    requires Precedes(l, r)
    requires forall n: nat :: KeyAt(l, n) == KeyAt(l', n) && KeyAt(r, n) == KeyAt(r', n)
    ensures Precedes(l', r')
  {
    hide KeyAt;
    var n: nat :| Agree(l, r, n) && Before(KeyAt(l, n), KeyAt(r, n));
    assert Agree(l', r', n);
  }

  lemma PrecedesTransitive(x: seq<string>, y: seq<string>, z: seq<string>)
    requires Precedes(x, y) && Precedes(y, z)
    ensures Precedes(x, z)
  {
    hide KeyAt, Before;
    var m: nat :| Agree(x, y, m) && Before(KeyAt(x, m), KeyAt(y, m));
    var n: nat :| Agree(y, z, n) && Before(KeyAt(y, n), KeyAt(z, n));
    var k := if m < n then m else n;
    BeforeIsStrict(KeyAt(x, k), KeyAt(y, k), KeyAt(z, k));
    assert Agree(x, z, k);
    assert Before(KeyAt(x, k), KeyAt(z, k));
  }
}
