/** Byte strings: order, sorting, splitting and trimming, as Go's `strings`,
    `bytes` and `sort` packages do them.  A string is a sequence of bytes or, for the
    callers of `TrimSpace`, of runes: white space is a matter of runes, and everything
    else here gives the same on runes as on their UTF-8 bytes. */
module Text {

  datatype Option<+T> = None | Some(value: T)

  // ------------------------------------------------------------------ order

  /** Bytewise lexicographic order: Go's `<` on strings. */
  predicate Less(a: string, b: string) {
    if b == [] then false
    else if a == [] then true
    else if a[0] != b[0] then a[0] < b[0]
    else Less(a[1..], b[1..])
  }

  predicate LessEq(a: string, b: string) {
    !Less(b, a)
  }

  lemma {:induction false} LessTotal(a: string, b: string)
    ensures (Less(a, b) && !Less(b, a) && a != b) || (Less(b, a) && !Less(a, b) && a != b) || (a == b && !Less(a, b))
  {
    if a != [] && b != [] && a[0] == b[0] {
      LessTotal(a[1..], b[1..]);
      assert a == [a[0]] + a[1..] && b == [b[0]] + b[1..];
    }
  }

  lemma {:induction false} LessTransitive(a: string, b: string, c: string)
    requires Less(a, b) && Less(b, c)
    ensures Less(a, c)
  {
    if a != [] && a[0] == b[0] == c[0] {
      LessTransitive(a[1..], b[1..], c[1..]);
    }
  }

  lemma LessEqTransitive(a: string, b: string, c: string)
    requires LessEq(a, b) && LessEq(b, c)
    ensures LessEq(a, c)
  {
    LessTotal(a, b);
    LessTotal(b, c);
    LessTotal(a, c);
    if Less(c, a) && b != c && a != b {
      LessTransitive(a, b, c);
    }
  }

  /** Strings between two extensions of `p` extend `p`. */
  lemma {:induction false} PrefixInterval(p: string, a: string, b: string, c: string)
    requires p <= a && p <= c && LessEq(a, b) && LessEq(b, c)
    ensures p <= b
  {
    if p != [] {
      assert p[1..] <= a[1..] && p[1..] <= c[1..];
      PrefixInterval(p[1..], a[1..], b[1..], c[1..]);
      assert b == [b[0]] + b[1..] && p == [p[0]] + p[1..];
    }
  }

  /** Two strings that share a prefix are ordered by the byte after it. */
  lemma {:induction false} LessAfterPrefix(p: string, a: string, b: string)
    requires p < a && p < b && a[|p|] < b[|p|]
    ensures Less(a, b)
  {
    if p != [] {
      assert p[1..] < a[1..] && p[1..] < b[1..];
      LessAfterPrefix(p[1..], a[1..], b[1..]);
    }
  }

  lemma {:induction false} PrefixLess(p: string, a: string)
    requires p < a
    ensures Less(p, a)
  {
    if p != [] {
      assert p[1..] < a[1..];
      PrefixLess(p[1..], a[1..]);
    }
  }

  // ---------------------------------------------------------------- sorting

  ghost predicate Sorted(ss: seq<string>) {
    forall i, j | 0 <= i < j < |ss| :: LessEq(ss[i], ss[j])
  }

  ghost predicate Distinct<T>(ss: seq<T>) {
    forall i, j | 0 <= i < j < |ss| :: ss[i] != ss[j]
  }

  function Insert(x: string, ss: seq<string>): (r: seq<string>)
    ensures multiset(r) == multiset(ss) + multiset{x}
    ensures |r| == |ss| + 1
  {
    if ss == [] then [x]
    else if Less(ss[0], x) then
      assert ss == [ss[0]] + ss[1..];
      [ss[0]] + Insert(x, ss[1..])
    else
      [x] + ss
  }

  /** `sort.Strings`: the ascending rearrangement. */
  function SortStrings(ss: seq<string>): (r: seq<string>)
    ensures multiset(r) == multiset(ss)
    ensures |r| == |ss|
  {
    if ss == [] then []
    else
      assert ss == [ss[0]] + ss[1..];
      Insert(ss[0], SortStrings(ss[1..]))
  }

  lemma {:induction false} InsertSorted(x: string, ss: seq<string>)
    requires Sorted(ss)
    ensures Sorted(Insert(x, ss))
  {
    if ss == [] {
    } else if Less(ss[0], x) {
      InsertSorted(x, ss[1..]);
      var r := Insert(x, ss[1..]);
      forall j | 0 <= j < |r| ensures LessEq(ss[0], r[j]) {
        assert r[j] in multiset(r);
        LessTotal(ss[0], x);
        assert r[j] == x || r[j] in ss[1..];
      }
    } else {
      forall j | 0 <= j < |ss| ensures LessEq(x, ss[j]) {
        if j > 0 { LessEqTransitive(x, ss[0], ss[j]); }
      }
    }
  }

  lemma {:induction false} SortSorts(ss: seq<string>)
    ensures Sorted(SortStrings(ss))
  {
    if ss != [] {
      SortSorts(ss[1..]);
      InsertSorted(ss[0], SortStrings(ss[1..]));
    }
  }

  lemma {:induction false} MembersOfMultiset<T>(a: seq<T>, b: seq<T>)
    requires multiset(a) == multiset(b)
    ensures forall x :: x in a <==> x in b
  {
    forall x ensures x in a <==> x in b {
      assert x in a <==> x in multiset(a);
      assert x in b <==> x in multiset(b);
    }
  }

  lemma {:induction false} DistinctCount<T>(ss: seq<T>, x: T)
    requires Distinct(ss)
    ensures multiset(ss)[x] == if x in ss then 1 else 0
  {
    if ss != [] {
      assert ss == [ss[0]] + ss[1..];
      DistinctCount(ss[1..], x);
    }
  }

  lemma {:induction false} CountDistinct<T>(ss: seq<T>)
    requires forall x :: multiset(ss)[x] <= 1
    ensures Distinct(ss)
  {
    forall i, j | 0 <= i < j < |ss| ensures ss[i] != ss[j] {
      assert ss == ss[..i] + [ss[i]] + ss[i+1..j] + [ss[j]] + ss[j+1..];
      assert multiset(ss)[ss[i]] >= multiset{ss[i], ss[j]}[ss[i]];
    }
  }

  lemma {:induction false} DistinctPermutation<T>(a: seq<T>, b: seq<T>)
    requires Distinct(a) && multiset(a) == multiset(b)
    ensures Distinct(b)
  {
    forall x ensures multiset(b)[x] <= 1 { DistinctCount(a, x); }
    CountDistinct(b);
  }

  // ------------------------------------------------- splitting and joining

  /** `strings.Split` at a single byte: at least one part, none containing it. */
  function Split(s: string, c: char): (parts: seq<string>)
    ensures parts != []
    ensures forall k | 0 <= k < |parts| :: c !in parts[k]
  {
    if s == "" then [""]
    else if s[0] == c then [""] + Split(s[1..], c)
    else
      var rest := Split(s[1..], c);
      [[s[0]] + rest[0]] + rest[1..]
  }

  function Join(parts: seq<string>, c: char): string {
    if parts == [] then ""
    else if |parts| == 1 then parts[0]
    else parts[0] + [c] + Join(parts[1..], c)
  }

  lemma {:induction false} SplitWhole(s: string, c: char)
    requires c !in s
    ensures Split(s, c) == [s]
  {
    if s != "" {
      SplitWhole(s[1..], c);
      assert s == [s[0]] + s[1..];
    }
  }

  lemma {:induction false} SplitConcat(a: string, c: char, b: string)
    ensures Split(a + [c] + b, c) == Split(a, c) + Split(b, c)
  {
    var s := a + [c] + b;
    if a == "" {
      assert s[1..] == b;
    } else {
      assert s[1..] == a[1..] + [c] + b;
      SplitConcat(a[1..], c, b);
    }
  }

  lemma {:induction false} SplitJoin(parts: seq<string>, c: char)
    requires parts != [] && forall k | 0 <= k < |parts| :: c !in parts[k]
    ensures Split(Join(parts, c), c) == parts
  {
    if |parts| == 1 {
      SplitWhole(parts[0], c);
    } else {
      SplitJoin(parts[1..], c);
      SplitWhole(parts[0], c);
      SplitConcat(parts[0], c, Join(parts[1..], c));
    }
  }

  lemma {:induction false} JoinCons(x: string, parts: seq<string>, c: char)
    requires parts != []
    ensures Join([x] + parts, c) == x + [c] + Join(parts, c)
  {
    assert ([x] + parts)[1..] == parts;
  }

  lemma {:induction false} JoinSplit(s: string, c: char)
    ensures Join(Split(s, c), c) == s
  {
    if s != "" {
      var rest := Split(s[1..], c);
      JoinSplit(s[1..], c);
      assert s == [s[0]] + s[1..];
      assert Split(s, c) == if s[0] == c then [""] + rest else [[s[0]] + rest[0]] + rest[1..];
      hide Split;
      if s[0] == c {
        JoinCons("", rest, c);
      } else if |rest| > 1 {
        JoinCons(rest[0], rest[1..], c);
        JoinCons([s[0]] + rest[0], rest[1..], c);
        assert rest == [rest[0]] + rest[1..];
      }
    }
  }

  predicate HasSuffix(s: string, suffix: string) {
    |suffix| <= |s| && s[|s| - |suffix|..] == suffix
  }

  function TrimSuffix(s: string, suffix: string): string {
    if HasSuffix(s, suffix) then s[..|s| - |suffix|] else s
  }

  // ------------------------------------------------------------ white space

  /** `unicode.IsSpace`. */
  predicate IsSpace(c: char) {
    || '\t' <= c <= '\r' || c == ' ' || c == '\U{0085}' || c == '\U{00A0}'
    || c == '\U{1680}' || '\U{2000}' <= c <= '\U{200A}' || c == '\U{2028}' || c == '\U{2029}'
    || c == '\U{202F}' || c == '\U{205F}' || c == '\U{3000}'
  }

  /** The white space of Unicode, by its code points. */
  lemma SpacesAre(c: char)
    ensures IsSpace(c) <==>
      var code := c as int;
      9 <= code <= 13 || 0x2000 <= code <= 0x200A
      || code in {0x20, 0x85, 0xA0, 0x1680, 0x2028, 0x2029, 0x202F, 0x205F, 0x3000}
  {
  }

  function TrimLeft(s: string): string {
    if s != "" && IsSpace(s[0]) then TrimLeft(s[1..]) else s
  }

  function TrimRight(s: string): string {
    if s != "" && IsSpace(s[|s| - 1]) then TrimRight(s[..|s| - 1]) else s
  }

  /** `strings.TrimSpace`. */
  function TrimSpace(s: string): string {
    TrimRight(TrimLeft(s))
  }

  /** Neither end is white space, so `TrimSpace` leaves it alone. */
  predicate Trimmed(s: string) {
    s != "" ==> !IsSpace(s[0]) && !IsSpace(s[|s| - 1])
  }

  lemma TrimmedStays(s: string)
    requires Trimmed(s)
    ensures TrimSpace(s) == s
  {
  }

  lemma {:induction false} TrimLeftTrims(s: string)
    ensures TrimLeft(s) != "" ==> !IsSpace(TrimLeft(s)[0])
    ensures |TrimLeft(s)| <= |s| && TrimLeft(s) == s[|s| - |TrimLeft(s)|..]
  {
    hide IsSpace;
    if s != "" && IsSpace(s[0]) {
      TrimLeftTrims(s[1..]);
    }
  }

  lemma {:induction false} TrimRightTrims(s: string)
    ensures TrimRight(s) != "" ==> !IsSpace(TrimRight(s)[|TrimRight(s)| - 1])
    ensures TrimRight(s) <= s
  {
    hide IsSpace;
    if s != "" && IsSpace(s[|s| - 1]) {
      TrimRightTrims(s[..|s| - 1]);
    }
  }

  /** `TrimSpace` cuts both ends and nothing else. */
  lemma TrimSpaceTrims(s: string)
    ensures Trimmed(TrimSpace(s))
    ensures exists i, j | 0 <= i <= j <= |s| :: TrimSpace(s) == s[i..j]
  {
    hide IsSpace, TrimLeft, TrimRight;
    TrimLeftTrims(s);
    var left := TrimLeft(s);
    TrimRightTrims(left);
    Inner(s, |s| - |left|, |TrimSpace(s)|);
  }

  lemma Inner(s: string, i: nat, n: nat)
    requires i + n <= |s|
    ensures s[i..][..n] == s[i..i + n]
  {
  }

  predicate AllSpace(s: string) {
    forall k | 0 <= k < |s| :: IsSpace(s[k])
  }

  lemma {:induction false} TrimLeftPad(a: string, s: string)
    requires AllSpace(a)
    ensures TrimLeft(a + s) == TrimLeft(s)
  {
    hide IsSpace;
    if a == "" {
      assert a + s == s;
    } else {
      assert (a + s)[1..] == a[1..] + s;
      TrimLeftPad(a[1..], s);
    }
  }

  lemma {:induction false} TrimRightPad(s: string, b: string)
    requires AllSpace(b)
    ensures TrimRight(s + b) == TrimRight(s)
  {
    hide IsSpace;
    if b == "" {
      assert s + b == s;
    } else {
      assert (s + b)[..|s + b| - 1] == s + b[..|b| - 1];
      TrimRightPad(s, b[..|b| - 1]);
    }
  }

  lemma {:induction false} TrimLeftKeeps(s: string, b: string)
    ensures if AllSpace(s) then TrimLeft(s) == "" && TrimLeft(s + b) == TrimLeft(b)
            else TrimLeft(s + b) == TrimLeft(s) + b
  {
    hide IsSpace;
    if s == "" {
      assert s + b == b;
    } else {
      assert (s + b)[1..] == s[1..] + b;
      TrimLeftKeeps(s[1..], b);
      if IsSpace(s[0]) {
        assert AllSpace(s) <==> AllSpace(s[1..]);
      }
    }
  }

  /** White space around a text makes no difference to `TrimSpace`. */
  lemma TrimPad(a: string, s: string, b: string)
    requires AllSpace(a) && AllSpace(b)
    ensures TrimSpace(a + s + b) == TrimSpace(s)
  {
    hide IsSpace, TrimLeft, TrimRight;
    assert a + s + b == a + (s + b);
    TrimLeftPad(a, s + b);
    TrimLeftKeeps(s, b);
    if AllSpace(s) {
      TrimLeftKeeps(b, "");
      assert b + "" == b;
    } else {
      TrimRightPad(TrimLeft(s), b);
    }
  }

  // ---------------------------------------------------------------- numbers

  const MAX_INT := 0x7FFF_FFFF_FFFF_FFFF

  predicate IsDigit(c: char): (digit: bool)
    ensures digit <==> 48 <= c as int <= 57
  {
    '0' <= c <= '9'
  }

  predicate AllDigits(s: string) {
    s != "" && forall k | 0 <= k < |s| :: IsDigit(s[k])
  }

  function Decimal(s: string): int
    requires forall k | 0 <= k < |s| :: IsDigit(s[k])
  {
    if s == "" then 0 else 10 * Decimal(s[..|s| - 1]) + (s[|s| - 1] as int - '0' as int)
  }

  /** `strconv.Atoi` with a 64-bit `int`: an optional sign, digits, and no overflow. */
  function Atoi(s: string): Option<int> {
    var signed := s != "" && (s[0] == '+' || s[0] == '-');
    var digits := if signed then s[1..] else s;
    if !AllDigits(digits) then None
    else
      var n: int := if signed && s[0] == '-' then -Decimal(digits) else Decimal(digits);
      if -MAX_INT - 1 <= n <= MAX_INT then Some(n) else None
  }

  function Digit(d: nat): char
    requires d < 10
  {
    '0' + d as char
  }

  /** A number, written out. */
  function Shown(n: nat): (s: string)
    ensures s != "" && s[0] != '+' && s[0] != '-' && forall k | 0 <= k < |s| :: IsDigit(s[k])
  {
    if n < 10 then [Digit(n)] else Shown(n / 10) + [Digit(n % 10)]
  }

  lemma {:induction false} DecimalShown(n: nat)
    ensures Decimal(Shown(n)) == n
    decreases n
  {
    var s := Shown(n);
    if n < 10 {
      assert s[..|s| - 1] == "" && Decimal("") == 0;
    } else {
      DecimalShown(n / 10);
      assert s[..|s| - 1] == Shown(n / 10);
    }
  }

  /** `Atoi` reads what is written, with or without a sign, as far as 64 bits go. */
  lemma AtoiReads(n: nat)
    ensures Atoi(Shown(n)) == Atoi("+" + Shown(n)) == if n <= MAX_INT then Some(n) else None
    ensures var negative := Atoi("-" + Shown(n));
            if n <= MAX_INT + 1 then negative.Some? && negative.value + n == 0 else negative.None?
  {
    var d := Shown(n);
    DecimalShown(n);
    hide Shown, Decimal;
    assert ("+" + d)[1..] == d && ("-" + d)[1..] == d;
  }

  /** And nothing else but digits after a sign, if any. */
  lemma AtoiReadsOnly(s: string)
    ensures Atoi(s).Some? ==> AllDigits(s) || (s != "" && s[0] in ['+', '-'] && AllDigits(s[1..]))
  {
    hide Decimal;
  }
}
