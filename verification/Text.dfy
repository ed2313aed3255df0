/** The string operations of Python the packet parsers are built from. */
module Text {
  import opened Prelude
  import opened Sorting

  /** `s.split(sep)`. */
  function Split(s: string, sep: char): (pieces: seq<string>)
    ensures pieces != []
    decreases |s|
  {
    if s == [] then [""] else Prepend(s[0], sep, Split(s[1..], sep))
  }

  function Prepend(c: char, sep: char, pieces: seq<string>): (more: seq<string>)
    requires pieces != []
    ensures more != []
  {
    if c == sep then [""] + pieces else [[c] + pieces[0]] + pieces[1..]
  }

  lemma PrependAppend(c: char, sep: char, pieces: seq<string>, more: seq<string>)
    requires pieces != []
    ensures Prepend(c, sep, pieces + more) == Prepend(c, sep, pieces) + more
  {
    assert (pieces + more)[1..] == pieces[1..] + more;
  }

  /** `sep.join(pieces)`. */
  function Join(pieces: seq<string>, sep: char): string
    decreases |pieces|
  {
    if pieces == [] then ""
    else if |pieces| == 1 then pieces[0]
    else pieces[0] + [sep] + Join(pieces[1..], sep)
  }

  ghost predicate NoneHas(pieces: seq<string>, c: char) {
    forall i :: 0 <= i < |pieces| ==> c !in pieces[i]
  }

  lemma {:induction false} SplitLacks(s: string, sep: char)
    ensures NoneHas(Split(s, sep), sep)
    decreases |s|
  {
    if s != [] {
      SplitLacks(s[1..], sep);
    }
  }

  lemma {:induction false} JoinSplit(s: string, sep: char)
    ensures Join(Split(s, sep), sep) == s
    decreases |s|
  {
    if s != [] {
      JoinSplit(s[1..], sep);
      var rest := Split(s[1..], sep);
      if s[0] == sep {
        assert ([""] + rest)[1..] == rest;
      } else if |rest| > 1 {
        assert ([[s[0]] + rest[0]] + rest[1..])[1..] == rest[1..];
      }
    }
  }

  /** Text without the separator joins the first piece of what follows. */
  lemma {:induction false} SplitPrefix(a: string, b: string, sep: char)
    requires sep !in a
    ensures Split(a + b, sep) == [a + Split(b, sep)[0]] + Split(b, sep)[1..]
    decreases |a|
  {
    if a == "" {
      assert a + b == b && a + Split(b, sep)[0] == Split(b, sep)[0];
    } else {
      SplitPrefix(a[1..], b, sep);
      assert (a + b)[1..] == a[1..] + b;
      assert [a[0]] + (a[1..] + Split(b, sep)[0]) == a + Split(b, sep)[0];
    }
  }

  lemma {:induction false} SplitAppend(a: string, b: string, sep: char)
    ensures Split(a + [sep] + b, sep) == Split(a, sep) + Split(b, sep)
    decreases |a|
  {
    var s := a + [sep] + b;
    if a == "" {
      assert s[1..] == b;
    } else {
      SplitAppend(a[1..], b, sep);
      assert s[1..] == a[1..] + [sep] + b;
      PrependAppend(a[0], sep, Split(a[1..], sep), Split(b, sep));
      hide Prepend;
    }
  }

  lemma {:induction false} SplitKeepsOut(s: string, sep: char, c: char)
    requires c !in s
    ensures NoneHas(Split(s, sep), c)
    decreases |s|
  {
    if s != "" {
      SplitKeepsOut(s[1..], sep, c);
    }
  }

  lemma {:induction false} SplitWhole(s: string, sep: char)
    requires sep !in s
    ensures Split(s, sep) == [s]
    decreases |s|
  {
    if s != [] {
      SplitWhole(s[1..], sep);
      assert [s[0]] + s[1..] == s;
    }
  }

  lemma {:induction false} SplitJoin(pieces: seq<string>, sep: char)
    requires pieces != [] && NoneHas(pieces, sep)
    ensures Split(Join(pieces, sep), sep) == pieces
    decreases |pieces|
  {
    if |pieces| == 1 {
      SplitWhole(pieces[0], sep);
    } else {
      SplitJoin(pieces[1..], sep);
      SplitWhole(pieces[0], sep);
      SplitAppend(pieces[0], Join(pieces[1..], sep), sep);
    }
  }

  lemma {:induction false} JoinAppend(a: seq<string>, b: seq<string>, sep: char)
    requires a != [] && b != []
    ensures Join(a + b, sep) == Join(a, sep) + [sep] + Join(b, sep)
    decreases |a|
  {
    if |a| == 1 {
      assert (a + b)[1..] == b;
    } else {
      JoinAppend(a[1..], b, sep);
      assert (a + b)[1..] == a[1..] + b;
    }
  }

  lemma {:induction false} JoinLacks(pieces: seq<string>, sep: char, c: char)
    requires NoneHas(pieces, c) && c != sep
    ensures c !in Join(pieces, sep)
    decreases |pieces|
  {
    if |pieces| > 1 {
      JoinLacks(pieces[1..], sep, c);
    }
  }

  /** `s.split(sep, 1)`, when it has two pieces. */
  function Cut(s: string, sep: char): (r: Option<(string, string)>)
    ensures r.None? <==> sep !in s
    ensures r.Some? ==> sep !in r.value.0 && s == r.value.0 + [sep] + r.value.1
    decreases |s|
  {
    if s == [] then None
    else if s[0] == sep then Some(("", s[1..]))
    else
      match Cut(s[1..], sep)
      case None => None
      case Some(p) => Some(([s[0]] + p.0, p.1))
  }

  lemma {:induction false} CutAtSep(a: string, b: string, sep: char)
    requires sep !in a
    ensures Cut(a + [sep] + b, sep) == Some((a, b))
    decreases |a|
  {
    var s := a + [sep] + b;
    if a == [] {
      assert s[1..] == b;
    } else {
      CutAtSep(a[1..], b, sep);
      assert s[1..] == a[1..] + [sep] + b && [s[0]] + a[1..] == a;
    }
  }

  /** Where a slice bound falls: negative bounds count from the end, all are clamped. */
  function Bound(n: nat, i: int): (j: nat)
    ensures j <= n
  {
    var k := if i < 0 then i + n else i;
    if k < 0 then 0 else if k > n then n else k
  }

  /** `s[lo:hi]`. */
  function Slice(s: string, lo: int, hi: int): string {
    var a, b := Bound(|s|, lo), Bound(|s|, hi);
    if a <= b then s[a..b] else ""
  }

  /** `s[lo:]`. */
  function From(s: string, lo: int): string {
    s[Bound(|s|, lo)..]
  }

  // ---------- order ----------

  /** Lexicographic order by code point. */
  predicate TextLe(a: string, b: string)
    decreases |a|
  {
    a == "" || (b != "" && (a[0] < b[0] || (a[0] == b[0] && TextLe(a[1..], b[1..]))))
  }

  lemma {:induction false} TextTotal(a: string, b: string)
    ensures TextLe(a, b) || TextLe(b, a)
    decreases |a|
  {
    if a != "" && b != "" {
      TextTotal(a[1..], b[1..]);
    }
  }

  lemma {:induction false} TextTransitive(a: string, b: string, c: string)
    requires TextLe(a, b) && TextLe(b, c)
    ensures TextLe(a, c)
    decreases |a|
  {
    if a != "" && a[0] == b[0] == c[0] {
      TextTransitive(a[1..], b[1..], c[1..]);
    }
  }

  lemma {:induction false} TextAntisymmetric(a: string, b: string)
    requires TextLe(a, b) && TextLe(b, a)
    ensures a == b
    decreases |a|
  {
    if a != "" {
      TextAntisymmetric(a[1..], b[1..]);
      assert a == [a[0]] + a[1..] && b == [b[0]] + b[1..];
    }
  }

  lemma TextOrder()
    ensures TotalPreorder(TextLe) && Antisymmetric(TextLe)
  {
    forall a, b ensures TextLe(a, b) || TextLe(b, a) { TextTotal(a, b); }
    forall a, b, c | TextLe(a, b) && TextLe(b, c) ensures TextLe(a, c) { TextTransitive(a, b, c); }
    forall a, b | TextLe(a, b) && TextLe(b, a) ensures a == b { TextAntisymmetric(a, b); }
  }

  /** `sorted(tags)`. */
  function SortedTags(tags: seq<string>): seq<string> {
    Sort(tags, TextLe)
  }

  /** The sorted tags are the one ascending arrangement of the tags. */
  lemma SortedTagsIff(tags: seq<string>, arranged: seq<string>)
    ensures arranged == SortedTags(tags) <==> Sorted(arranged, TextLe) && multiset(arranged) == multiset(tags)
  {
    TextOrder();
    SortPermutes(tags, TextLe);
    SortSorts(tags, TextLe);
    if Sorted(arranged, TextLe) && multiset(arranged) == multiset(tags) {
      SortedUnique(arranged, SortedTags(tags), TextLe);
    }
  }

  /** Each tag once. */
  function Distinct(tags: seq<string>): (kept: seq<string>)
    ensures forall t :: t in kept <==> t in tags
    ensures forall i, j :: 0 <= i < j < |kept| ==> kept[i] != kept[j]
    decreases |tags|
  {
    if tags == [] then []
    else
      var rest := Distinct(tags[1..]);
      if tags[0] in rest then rest else [tags[0]] + rest
  }

  /** `sorted(set(tags))`. */
  function SortedSet(tags: seq<string>): seq<string> {
    SortedTags(Distinct(tags))
  }

  ghost predicate SameMembers(a: seq<string>, b: seq<string>) {
    forall t :: t in a <==> t in b
  }

  lemma {:induction false} DistinctMultiset(a: seq<string>, b: seq<string>)
    requires forall i, j :: 0 <= i < j < |a| ==> a[i] != a[j]
    requires forall i, j :: 0 <= i < j < |b| ==> b[i] != b[j]
    requires SameMembers(a, b)
    ensures multiset(a) == multiset(b)
  {
    DistinctCounts(a);
    DistinctCounts(b);
    forall t ensures multiset(a)[t] == multiset(b)[t] {
      if t in a {
        assert t in b;
      } else {
        assert t !in b;
        assert t !in multiset(a) && t !in multiset(b);
      }
    }
  }

  /** Two lists of tags become the same exactly when they have the same members. */
  lemma SortedSetIff(a: seq<string>, b: seq<string>)
    ensures SortedSet(a) == SortedSet(b) <==> SameMembers(a, b)
  {
    hide Distinct, SortedTags;
    var s, t := SortedSet(a), SortedSet(b);
    SortedTagsIff(Distinct(a), s);
    SortedTagsIff(Distinct(b), t);
    if SameMembers(a, b) {
      DistinctMultiset(Distinct(a), Distinct(b));
      SortedTagsIff(Distinct(a), t);
    }
    if s == t {
      forall x ensures x in a <==> x in b {
        assert x in multiset(Distinct(a)) <==> x in Distinct(a);
        assert x in multiset(Distinct(b)) <==> x in Distinct(b);
      }
    }
  }

  // ---------- decimal numbers ----------

  predicate IsDigit(c: char) {
    '0' <= c <= '9'
  }

  predicate IsSpace(c: char) {
    c == ' ' || c == '\t' || c == '\n' || c == '\r' || c == '\U{0B}' || c == '\U{0C}'
  }

  function DigitValue(c: char): int
    requires IsDigit(c)
  {
    c as int - '0' as int
  }

  function DigitsValue(s: string): int
    requires forall i :: 0 <= i < |s| ==> IsDigit(s[i])
    decreases |s|
  {
    if s == "" then 0 else 10 * DigitsValue(s[..|s| - 1]) + DigitValue(s[|s| - 1])
  }

  function StripLeft(s: string): string
    decreases |s|
  {
    if s != "" && IsSpace(s[0]) then StripLeft(s[1..]) else s
  }

  function StripRight(s: string): string
    decreases |s|
  {
    if s != "" && IsSpace(s[|s| - 1]) then StripRight(s[..|s| - 1]) else s
  }

  function Unsigned(s: string): Option<int> {
    if s != "" && forall i :: 0 <= i < |s| ==> IsDigit(s[i]) then Some(DigitsValue(s)) else None
  }

  /** `int(s)`; `None` is the ValueError. */
  function ParseInt(s: string): Option<int> {
    var t := StripRight(StripLeft(s));
    if t == "" then None
    else if t[0] == '-' then (var u := Unsigned(t[1..]); if u.None? then None else Some(-u.value))
    else if t[0] == '+' then Unsigned(t[1..])
    else Unsigned(t)
  }

  function Digit(d: int): (c: char)
    requires 0 <= d < 10
    ensures IsDigit(c) && DigitValue(c) == d
  {
    ('0' as int + d) as char
  }

  /** The decimal digits of a number. */
  function Digits(n: nat): (s: string)
    ensures s != "" && forall i :: 0 <= i < |s| ==> IsDigit(s[i])
    decreases n
  {
    (if n < 10 then "" else Digits(n / 10)) + [Digit(n % 10)]
  }

  function Decimal(n: int): string {
    if n < 0 then "-" + Digits(-n) else Digits(n)
  }

  lemma {:induction false} DigitsRoundTrip(n: nat)
    ensures DigitsValue(Digits(n)) == n
    decreases n
  {
    var s := Digits(n);
    if n < 10 {
      assert s[..|s| - 1] == "";
    } else {
      DigitsRoundTrip(n / 10);
      assert s[..|s| - 1] == Digits(n / 10);
    }
  }

  lemma BareParses(s: string)
    requires s != "" && !IsSpace(s[0]) && !IsSpace(s[|s| - 1])
    ensures StripRight(StripLeft(s)) == s
  {
  }

  lemma DecimalIsBare(n: int)
    ensures forall c :: c in Decimal(n) ==> IsDigit(c) || c == '-'
    ensures !IsSpace(Decimal(n)[0]) && !IsSpace(Decimal(n)[|Decimal(n)| - 1])
  {
    var d := Digits(if n < 0 then -n else n);
    hide Digits;
    assert IsDigit(d[0]) && IsDigit(d[|d| - 1]);
  }

  lemma DecimalRoundTrip(n: int)
    ensures ParseInt(Decimal(n)) == Some(n)
  {
    var m := if n < 0 then -n else n;
    DigitsRoundTrip(m);
    DecimalIsBare(n);
    BareParses(Decimal(n));
    var d := Digits(m);
    assert IsDigit(d[0]) && Unsigned(d) == Some(m);
    hide Digits, DigitsValue, StripLeft, StripRight, Unsigned, IsSpace;
    assert n < 0 ==> Decimal(n)[1..] == d;
  }

  ghost predicate Blank(s: string) { forall c :: c in s ==> IsSpace(c) }

  lemma {:induction false} StripLeftBlank(blank: string, s: string)
    requires Blank(blank) && s != "" && !IsSpace(s[0])
    ensures StripLeft(blank + s) == s
    decreases |blank|
  {
    hide IsSpace;
    if blank == "" {
      assert blank + s == s;
    } else {
      StripLeftBlank(blank[1..], s);
      assert (blank + s)[1..] == blank[1..] + s && (blank + s)[0] == blank[0];
    }
  }

  lemma {:induction false} StripRightBlank(s: string, blank: string)
    requires Blank(blank) && s != "" && !IsSpace(s[|s| - 1])
    ensures StripRight(s + blank) == s
    decreases |blank|
  {
    hide IsSpace;
    if blank == "" {
      assert s + blank == s;
    } else {
      var n := |blank| - 1;
      StripRightBlank(s, blank[..n]);
      assert (s + blank)[..|s| + n] == s + blank[..n] && (s + blank)[|s| + n] == blank[n];
    }
  }

  /** Blanks around an integer do not matter, and neither does a plus sign. */
  lemma PaddedParses(before: string, n: int, after: string)
    requires Blank(before) && Blank(after)
    ensures ParseInt(before + Decimal(n) + after) == Some(n)
    ensures n >= 0 ==> ParseInt("+" + Decimal(n)) == Some(n)
  {
    hide Blank, StripLeft, StripRight, Digits, Unsigned, IsSpace;
    var d := Decimal(n);
    DecimalIsBare(n);
    DecimalRoundTrip(n);
    BareParses(d);
    assert before + d + after == before + (d + after);
    StripLeftBlank(before, d + after);
    StripRightBlank(d, after);
    if n >= 0 { PlusParses(n); }
  }

  lemma PlusParses(n: nat)
    ensures ParseInt("+" + Digits(n)) == Some(n)
  {
    DigitsRoundTrip(n);
    var s, d := "+" + Digits(n), Digits(n);
    assert IsDigit(d[|d| - 1]) && s[|s| - 1] == d[|d| - 1];
    BareParses(s);
    assert Unsigned(d) == Some(n) && s[1..] == d;
    hide StripLeft, StripRight, Unsigned, Digits;
  }
}
