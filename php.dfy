/**
 * The PHP built-ins the plugin's core leans on, with PHP's own semantics:
 * strstr and its truthiness, explode/implode on a one-character delimiter,
 * intval on strings, the decimal rendering of integers, array_unique on
 * lists, and arrays with string keys (ordered dictionaries).
 */
module Php {

  datatype Option<+T> = None | Some(value: T)

  /** Applies `f` to every element, as array_map does on a list. */
  function MapSeq<A, B>(f: A -> B, s: seq<A>): (r: seq<B>)
    ensures |r| == |s|
    ensures forall i :: 0 <= i < |s| ==> r[i] == f(s[i])
  {
    seq(|s|, i requires 0 <= i < |s| => f(s[i]))
  }

  // ---------------------------------------------------------------------
  // strstr
  // ---------------------------------------------------------------------

  /** `n` occurs in `h` starting at index `j`. */
  predicate OccursAt(h: string, n: string, j: nat)
  {
    j + |n| <= |h| && h[j..j + |n|] == n
  }

  ghost predicate Contains(h: string, n: string)
  {
    exists j: nat :: OccursAt(h, n, j)
  }

  lemma OccursAtShift(h: string, n: string, j: nat)
    requires 0 < j && |h| > 0
    ensures OccursAt(h, n, j) == OccursAt(h[1..], n, j - 1)
  {
    if j + |n| <= |h| {
      assert h[j..j + |n|] == h[1..][j - 1..j - 1 + |n|];
    }
  }

  /** The index of the first occurrence of `n` in `h`, if any. */
  function FirstOccurrence(h: string, n: string): (r: Option<nat>)
    ensures r.Some? ==> OccursAt(h, n, r.value)
    ensures r.Some? ==> forall j: nat :: j < r.value ==> !OccursAt(h, n, j)
    ensures r.None? ==> forall j: nat :: !OccursAt(h, n, j)
    decreases |h|
  {
    if |h| < |n| then None
    else if h[..|n|] == n then Some(0)
    else
      assert !OccursAt(h, n, 0);
      assert forall j: nat :: 0 < j ==> OccursAt(h, n, j) == OccursAt(h[1..], n, j - 1) by {
        forall j: nat | 0 < j ensures OccursAt(h, n, j) == OccursAt(h[1..], n, j - 1) {
          OccursAtShift(h, n, j);
        }
      }
      match FirstOccurrence(h[1..], n)
      case None => None
      case Some(k) => Some(k + 1)
  }

  /** PHP's strstr: the rest of `h` from the first occurrence of `n`, or false (None). */
  function StrStr(h: string, n: string): (r: Option<string>)
    ensures r.Some? <==> Contains(h, n)
    ensures r.Some? ==> |n| <= |r.value| && r.value[..|n|] == n
    ensures n != "" && n != "0" ==> (Truthy(r) <==> Contains(h, n))
  {
    match FirstOccurrence(h, n)
    case None => None
    case Some(k) => assert h[k..][..|n|] == h[k..k + |n|]; Some(h[k..])
  }

  /** How `if (strstr(...))` reads the result: false, "" and "0" are falsy. */
  predicate Truthy(r: Option<string>)
  {
    r.Some? && r.value != "" && r.value != "0"
  }

  // ---------------------------------------------------------------------
  // explode / implode
  // ---------------------------------------------------------------------

  /** PHP's explode with a one-character delimiter `d`. */
  function Explode(s: string, d: char): (parts: seq<string>)
    ensures |parts| >= 1
    ensures forall i :: 0 <= i < |parts| ==> d !in parts[i]
    decreases |s|
  {
    if s == [] then [""]
    else
      var rest := Explode(s[1..], d);
      if s[0] == d then [""] + rest
      else [[s[0]] + rest[0]] + rest[1..]
  }

  /** PHP's implode: the parts joined by `sep`. */
  function Implode(sep: string, parts: seq<string>): string
    decreases |parts|
  {
    if parts == [] then ""
    else if |parts| == 1 then parts[0]
    else parts[0] + sep + Implode(sep, parts[1..])
  }

  /** Putting a character before the first piece puts it before the joined string. */
  lemma ImplodePrepend(sep: string, c: char, parts: seq<string>)
    requires |parts| >= 1
    ensures Implode(sep, [[c] + parts[0]] + parts[1..]) == [c] + Implode(sep, parts)
  {
    var q := [[c] + parts[0]] + parts[1..];
    assert q[1..] == parts[1..];
  }

  /** An empty first piece: the join starts with the separator. */
  lemma ImplodeEmptyHead(sep: string, parts: seq<string>)
    requires |parts| >= 1
    ensures Implode(sep, [""] + parts) == sep + Implode(sep, parts)
  {
    assert ([""] + parts)[1..] == parts;
  }

  /** Joining the pieces of explode with the delimiter gives the string back. */
  lemma {:induction false} ImplodeExplode(s: string, d: char)
    ensures Implode([d], Explode(s, d)) == s
    decreases |s|
  {
    if s != [] {
      var rest := Explode(s[1..], d);
      ImplodeExplode(s[1..], d);
      assert s == [s[0]] + s[1..];
      if s[0] == d {
        ImplodeEmptyHead([d], rest);
      } else {
        ImplodePrepend([d], s[0], rest);
      }
    }
  }

  lemma {:induction false} ExplodeNoDelimiter(a: string, d: char)
    requires d !in a
    ensures Explode(a, d) == [a]
    decreases |a|
  {
    if a != [] {
      ExplodeNoDelimiter(a[1..], d);
      assert [a[0]] + a[1..] == a;
    }
  }

  lemma {:induction false} ExplodeJoin(a: string, b: string, d: char)
    requires d !in a
    ensures Explode(a + [d] + b, d) == [a] + Explode(b, d)
    decreases |a|
  {
    var s := a + [d] + b;
    if a == [] {
      assert s[1..] == b;
    } else {
      assert s[1..] == a[1..] + [d] + b;
      ExplodeJoin(a[1..], b, d);
      assert [a[0]] + a[1..] == a;
    }
  }

  /** Explode undoes implode when no piece contains the delimiter. */
  lemma {:induction false} ExplodeImplode(parts: seq<string>, d: char)
    requires |parts| >= 1
    requires forall i :: 0 <= i < |parts| ==> d !in parts[i]
    ensures Explode(Implode([d], parts), d) == parts
    decreases |parts|
  {
    if |parts| == 1 {
      ExplodeNoDelimiter(parts[0], d);
    } else {
      ExplodeImplode(parts[1..], d);
      ExplodeJoin(parts[0], Implode([d], parts[1..]), d);
      assert [parts[0]] + parts[1..] == parts;
    }
  }

  // ---------------------------------------------------------------------
  // integers as strings: intval and the "." rendering of an int
  // ---------------------------------------------------------------------

  const PhpIntMax: int := 0x7FFF_FFFF_FFFF_FFFF
  const PhpIntMin: int := -0x8000_0000_0000_0000

  predicate IsDigit(c: char)
  {
    '0' <= c <= '9'
  }

  predicate AllDigits(s: string)
  {
    forall i :: 0 <= i < |s| ==> IsDigit(s[i])
  }

  /** The white space PHP skips before a numeric string. */
  predicate IsSpace(c: char)
  {
    c == ' ' || c == '\t' || c == '\n' || c == '\r' || c == '\U{B}' || c == '\U{C}'
  }

  function TrimLeadingSpace(s: string): (r: string)
    ensures |r| <= |s| && r == s[|s| - |r|..]
    ensures r == [] || !IsSpace(r[0])
    decreases |s|
  {
    if s != [] && IsSpace(s[0]) then TrimLeadingSpace(s[1..]) else s
  }

  /** The longest prefix of `s` made of decimal digits. */
  function LeadingDigits(s: string): (r: string)
    ensures |r| <= |s| && r == s[..|r|]
    ensures AllDigits(r)
    ensures |r| < |s| ==> !IsDigit(s[|r|])
    decreases |s|
  {
    if s != [] && IsDigit(s[0]) then [s[0]] + LeadingDigits(s[1..]) else []
  }

  function DigitValue(c: char): nat
    requires IsDigit(c)
  {
    c as int - '0' as int
  }

  /** The value of a string of decimal digits, most significant first. */
  function DigitsValue(s: string): nat
    requires AllDigits(s)
    decreases |s|
  {
    if s == [] then 0 else 10 * DigitsValue(s[..|s| - 1]) + DigitValue(s[|s| - 1])
  }

  /**
   * The smallest magnitude that a decimal string cannot be read as a finite
   * double: halfway between the largest double, (2^53 - 1) * 2^971, and
   * 2^1024, where round-to-nearest-even goes up to infinity.
   */
  const DoubleOverflow: int := 0xFFFF_FFFF_FFFF_FC00_0000_0000_0000_0000_0000_0000_0000_0000_0000_0000_0000_0000_0000_0000_0000_0000_0000_0000_0000_0000_0000_0000_0000_0000_0000_0000_0000_0000_0000_0000_0000_0000_0000_0000_0000_0000_0000_0000_0000_0000_0000_0000_0000_0000_0000_0000_0000_0000_0000_0000_0000_0000_0000_0000_0000_0000_0000_0000_0000_0000

  /**
   * The int a numeric string of value `v` reads as. Out of the int range PHP
   * reads the string as a double and converts that back: a finite double
   * saturates at the nearest bound, an infinite one becomes 0.
   */
  function Saturate(v: int): (r: int)
    ensures PhpIntMin <= r <= PhpIntMax
    ensures PhpIntMin <= v <= PhpIntMax ==> r == v
    ensures PhpIntMax < v < DoubleOverflow ==> r == PhpIntMax
    ensures -DoubleOverflow < v < PhpIntMin ==> r == PhpIntMin
    ensures v >= DoubleOverflow || v <= -DoubleOverflow ==> r == 0
    ensures v >= 0 ==> r >= 0
  {
    if v >= DoubleOverflow || v <= -DoubleOverflow then 0
    else if v > PhpIntMax then PhpIntMax
    else if v < PhpIntMin then PhpIntMin
    else v
  }

  /** An optional sign, then the longest run of digits; 0 when there are none. */
  function ReadSigned(t: string): (r: int)
    ensures PhpIntMin <= r <= PhpIntMax
    ensures t == [] || t[0] != '-' ==> r >= 0
  {
    if t != [] && t[0] == '-' then Saturate(-(DigitsValue(LeadingDigits(t[1..])) as int))
    else if t != [] && t[0] == '+' then Saturate(DigitsValue(LeadingDigits(t[1..])))
    else Saturate(DigitsValue(LeadingDigits(t)))
  }

  /** PHP's intval on a string: leading white space is skipped, then a signed run of digits is read. */
  function Intval(s: string): (r: int)
    ensures PhpIntMin <= r <= PhpIntMax
    ensures '-' !in s ==> r >= 0
  {
    var t := TrimLeadingSpace(s);
    assert t != [] ==> t[0] == s[|s| - |t|];
    ReadSigned(t)
  }

  function DigitChar(d: nat): (c: char)
    requires d < 10
    ensures IsDigit(c) && DigitValue(c) == d
  {
    ('0' as int + d) as char
  }

  /** The decimal digits of `n`, as PHP renders a non-negative int in a string. */
  function DecimalString(n: nat): (s: string)
    ensures |s| >= 1 && AllDigits(s)
    decreases n
  {
    if n < 10 then [DigitChar(n)] else DecimalString(n / 10) + [DigitChar(n % 10)]
  }

  /** PHP's conversion of an int to a string (the `.` operator). */
  function IntString(i: int): string
  {
    if i < 0 then "-" + DecimalString(-i) else DecimalString(i)
  }

  lemma {:induction false} DigitsValueOfDecimal(n: nat)
    ensures DigitsValue(DecimalString(n)) == n
    decreases n
  {
    if n >= 10 {
      var s := DecimalString(n);
      assert s[..|s| - 1] == DecimalString(n / 10);
      DigitsValueOfDecimal(n / 10);
    }
  }

  /** On a string of digits only, the run of leading digits is the whole string. */
  lemma LeadingDigitsAll(s: string)
    requires AllDigits(s)
    ensures LeadingDigits(s) == s
  {
    var r := LeadingDigits(s);
    assert |r| == |s|;
  }

  lemma TrimNoSpace(s: string)
    requires s != [] && IsDigit(s[0])
    ensures TrimLeadingSpace(s) == s
  {
  }

  lemma ReadUnsigned(t: string)
    requires t != [] && IsDigit(t[0])
    ensures ReadSigned(t) == Saturate(DigitsValue(LeadingDigits(t)))
  {
  }

  /** A string that starts with a digit has no white space or sign to skip. */
  lemma IntvalUnsigned(s: string)
    requires s != [] && IsDigit(s[0])
    ensures Intval(s) == Saturate(DigitsValue(LeadingDigits(s)))
  {
    TrimNoSpace(s);
    ReadUnsigned(s);
  }

  /**
   * intval of a plain string of digits: its value when that fits, the
   * largest int when it only fits a double, and 0 beyond every double.
   */
  lemma IntvalOfDigits(s: string)
    requires |s| >= 1 && AllDigits(s)
    ensures DigitsValue(s) <= PhpIntMax ==> Intval(s) == DigitsValue(s)
    ensures PhpIntMax < DigitsValue(s) < DoubleOverflow ==> Intval(s) == PhpIntMax
    ensures DigitsValue(s) >= DoubleOverflow ==> Intval(s) == 0
  {
    IntvalUnsigned(s);
    LeadingDigitsAll(s);
  }

  /** intval reads back every int in range that PHP writes out. */
  lemma IntvalOfIntString(n: nat)
    requires n <= PhpIntMax
    ensures Intval(IntString(n)) == n
  {
    DigitsValueOfDecimal(n);
    IntvalOfDigits(DecimalString(n));
  }

  // ---------------------------------------------------------------------
  // trim
  // ---------------------------------------------------------------------

  /** The characters PHP's trim strips by default: " \t\n\r\0\x0B". */
  predicate IsTrimChar(c: char)
  {
    c == ' ' || c == '\t' || c == '\n' || c == '\r' || c == '\0' || c == '\U{B}'
  }

  function TrimStart(s: string): string
    decreases |s|
  {
    if s != [] && IsTrimChar(s[0]) then TrimStart(s[1..]) else s
  }

  function TrimEnd(s: string): string
    decreases |s|
  {
    if s != [] && IsTrimChar(s[|s| - 1]) then TrimEnd(s[..|s| - 1]) else s
  }

  /** TrimStart drops a prefix of trim characters, up to the first other character. */
  lemma {:induction false} TrimStartDrops(s: string)
    ensures |TrimStart(s)| <= |s| && TrimStart(s) == s[|s| - |TrimStart(s)|..]
    ensures TrimStart(s) == [] || !IsTrimChar(TrimStart(s)[0])
    ensures forall i :: 0 <= i < |s| - |TrimStart(s)| ==> IsTrimChar(s[i])
    decreases |s|
  {
    if s != [] && IsTrimChar(s[0]) {
      TrimStartDrops(s[1..]);
      assert forall i :: 1 <= i < |s| ==> s[i] == s[1..][i - 1];
    }
  }

  /** TrimEnd drops a suffix of trim characters, back to the last other character. */
  lemma {:induction false} TrimEndDrops(s: string)
    ensures |TrimEnd(s)| <= |s| && TrimEnd(s) == s[..|TrimEnd(s)|]
    ensures TrimEnd(s) == [] || !IsTrimChar(TrimEnd(s)[|TrimEnd(s)| - 1])
    ensures forall i :: |TrimEnd(s)| <= i < |s| ==> IsTrimChar(s[i])
    decreases |s|
  {
    if s != [] && IsTrimChar(s[|s| - 1]) {
      TrimEndDrops(s[..|s| - 1]);
    }
  }

  /** PHP's trim: `s` without its leading and trailing trim characters. */
  function Trim(s: string): string
  {
    TrimEnd(TrimStart(s))
  }

  /**
   * What trim leaves: `s` with only trim characters cut off either end,
   * and nothing more to cut; blank exactly when `s` is all trim characters.
   */
  lemma TrimStripped(s: string)
    ensures exists a :: StrippedAt(s, Trim(s), a)
    ensures Trim(s) == [] || (!IsTrimChar(Trim(s)[0]) && !IsTrimChar(Trim(s)[|Trim(s)| - 1]))
    ensures Trim(s) == [] <==> forall i :: 0 <= i < |s| ==> IsTrimChar(s[i])
  {
    TrimStartDrops(s);
    TrimEndDrops(TrimStart(s));
    StripBothEnds(s, TrimStart(s), Trim(s));
  }

  /** `r` is `s` from index `a` on, with only trim characters cut off either end. */
  predicate StrippedAt(s: string, r: string, a: int)
  {
    && 0 <= a && a + |r| <= |s| && s[a..a + |r|] == r
    && (forall i :: 0 <= i < a ==> IsTrimChar(s[i]))
    && (forall i :: a + |r| <= i < |s| ==> IsTrimChar(s[i]))
  }

  lemma StripBothEnds(s: string, t: string, r: string)
    requires |t| <= |s| && t == s[|s| - |t|..]
    requires forall i :: 0 <= i < |s| - |t| ==> IsTrimChar(s[i])
    requires |r| <= |t| && r == t[..|r|]
    requires forall i :: |r| <= i < |t| ==> IsTrimChar(t[i])
    requires r == [] || !IsTrimChar(r[|r| - 1])
    ensures StrippedAt(s, r, |s| - |t|)
    ensures r == [] <==> forall i :: 0 <= i < |s| ==> IsTrimChar(s[i])
  {
    var a := |s| - |t|;
    assert forall i :: a <= i < |s| ==> s[i] == t[i - a];
    assert s[a..a + |r|] == r;
  }

  /** A string with nothing to strip at either end is its own trim. */
  lemma TrimTrimmed(s: string)
    requires s == [] || (!IsTrimChar(s[0]) && !IsTrimChar(s[|s| - 1]))
    ensures Trim(s) == s
  {
  }

  /** trim is idempotent. */
  lemma TrimIdempotent(s: string)
    ensures Trim(Trim(s)) == Trim(s)
  {
    TrimStripped(s);
    TrimTrimmed(Trim(s));
  }

  /** A leading trim character makes no difference to trim. */
  lemma TrimPadded(c: char, s: string)
    requires IsTrimChar(c)
    ensures Trim([c] + s) == Trim(s)
  {
    assert ([c] + s)[1..] == s;
  }

  // ---------------------------------------------------------------------
  // array_unique on a list
  // ---------------------------------------------------------------------

  predicate NoDuplicates<T(==)>(s: seq<T>)
  {
    forall i, j :: 0 <= i < j < |s| ==> s[i] != s[j]
  }

  /** The position of the first occurrence of `x` in `s`. */
  function IndexOf<T(==)>(s: seq<T>, x: T): (i: nat)
    requires x in s
    ensures i < |s| && s[i] == x && x !in s[..i]
  {
    if s[0] == x then 0 else assert s[1..][..IndexOf(s[1..], x)] == s[1..1 + IndexOf(s[1..], x)]; 1 + IndexOf(s[1..], x)
  }

  /**
   * PHP's array_unique on a list: every value once, at its first occurrence.
   * (array_unique compares the string forms; for ints that is equality.)
   */
  function Unique<T(==)>(s: seq<T>): (r: seq<T>)
    ensures NoDuplicates(r)
    ensures forall i :: 0 <= i < |r| ==> r[i] in s
    ensures forall i :: 0 <= i < |s| ==> s[i] in r
    ensures |r| <= |s|
    decreases |s|
  {
    if s == [] then []
    else
      var r := Unique(s[..|s| - 1]);
      assert forall i :: 0 <= i < |s| - 1 ==> s[i] == s[..|s| - 1][i];
      if s[|s| - 1] in r then r else r + [s[|s| - 1]]
  }

  /** array_unique of one more element: it is appended exactly when it is new. */
  lemma UniqueSnoc<T>(s: seq<T>, x: T)
    ensures Unique(s + [x]) == if x in Unique(s) then Unique(s) else Unique(s) + [x]
  {
    assert (s + [x])[..|s|] == s;
  }

  lemma {:induction false} IndexOfAppend<T>(s: seq<T>, x: T, y: T)
    requires y in s
    ensures IndexOf(s + [x], y) == IndexOf(s, y)
  {
    if s[0] != y {
      assert (s + [x])[1..] == s[1..] + [x];
      IndexOfAppend(s[1..], x, y);
    }
  }

  lemma {:induction false} IndexOfLast<T>(s: seq<T>, x: T)
    requires x !in s
    ensures IndexOf(s + [x], x) == |s|
  {
    if s != [] {
      assert (s + [x])[1..] == s[1..] + [x];
      IndexOfLast(s[1..], x);
    }
  }

  /** array_unique keeps values in the order of their first occurrence. */
  lemma {:induction false} UniqueFirstOccurrenceOrder<T>(s: seq<T>)
    ensures forall i, j :: 0 <= i < j < |Unique(s)| ==> IndexOf(s, Unique(s)[i]) < IndexOf(s, Unique(s)[j])
    decreases |s|
  {
    if s != [] {
      var p, x := s[..|s| - 1], s[|s| - 1];
      assert s == p + [x];
      UniqueFirstOccurrenceOrder(p);
      var q, r := Unique(p), Unique(s);
      forall i, j | 0 <= i < j < |r| ensures IndexOf(s, r[i]) < IndexOf(s, r[j]) {
        IndexOfAppend(p, x, q[i]);
        if j < |q| {
          IndexOfAppend(p, x, q[j]);
        } else {
          IndexOfLast(p, x);
        }
      }
    }
  }

  /** array_unique of a concatenation starts with array_unique of the first part. */
  lemma {:induction false} UniquePrefix<T>(a: seq<T>, b: seq<T>)
    ensures |Unique(a)| <= |Unique(a + b)|
    ensures Unique(a + b)[..|Unique(a)|] == Unique(a)
    decreases |b|
  {
    if b == [] {
      assert a + b == a;
    } else {
      var b' := b[..|b| - 1];
      assert (a + b)[..|a + b| - 1] == a + b';
      UniquePrefix(a, b');
    }
  }

  // ---------------------------------------------------------------------
  // arrays with string keys
  // ---------------------------------------------------------------------

  /** A PHP array with string keys: its entries in insertion order. */
  type Assoc<V> = seq<(string, V)>

  function Keys<V>(a: Assoc<V>): (ks: seq<string>)
    ensures |ks| == |a|
    ensures forall i :: 0 <= i < |a| ==> ks[i] == a[i].0
  {
    seq(|a|, i requires 0 <= i < |a| => a[i].0)
  }

  /** `$a[$k]`, or None when the key is absent. */
  function Get<V>(a: Assoc<V>, k: string): Option<V>
    decreases |a|
  {
    if a == [] then None else if a[0].0 == k then Some(a[0].1) else Get(a[1..], k)
  }

  lemma KeysCons<V>(e: (string, V), t: Assoc<V>)
    ensures Keys([e] + t) == [e.0] + Keys(t)
  {
  }

  /** `$a[$k] = $v`: replaces the value in place, or appends a new entry. */
  function Put<V>(a: Assoc<V>, k: string, v: V): (r: Assoc<V>)
    ensures Get(r, k) == Some(v)
    ensures forall k' :: k' != k ==> Get(r, k') == Get(a, k')
    ensures Keys(r) == if k in Keys(a) then Keys(a) else Keys(a) + [k]
    decreases |a|
  {
    if a == [] then [(k, v)]
    else
      KeysCons(a[0], a[1..]);
      assert [a[0]] + a[1..] == a;
      if a[0].0 == k then
        KeysCons((k, v), a[1..]);
        [(k, v)] + a[1..]
      else
        var rest := Put(a[1..], k, v);
        KeysCons(a[0], rest);
        [a[0]] + rest
  }

  /** The keys of `ks` other than `k`, in order. */
  function Without(ks: seq<string>, k: string): (r: seq<string>)
    ensures k !in r
    ensures forall k' :: k' != k ==> (k' in r <==> k' in ks)
    decreases |ks|
  {
    if ks == [] then []
    else if ks[0] == k then Without(ks[1..], k)
    else [ks[0]] + Without(ks[1..], k)
  }

  /** `unset($a[$k])`. */
  function Unset<V>(a: Assoc<V>, k: string): (r: Assoc<V>)
    ensures Get(r, k) == None
    ensures forall k' :: k' != k ==> Get(r, k') == Get(a, k')
    ensures Keys(r) == Without(Keys(a), k)
    decreases |a|
  {
    if a == [] then []
    else
      var rest := Unset(a[1..], k);
      KeysCons(a[0], a[1..]);
      assert [a[0]] + a[1..] == a;
      if a[0].0 == k then rest
      else
        KeysCons(a[0], rest);
        [a[0]] + rest
  }
}
