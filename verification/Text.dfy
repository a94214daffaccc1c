/** Go's `strings` package as far as the modelled code uses it: trimming, splitting,
    joining and ASCII case mapping, with the laws the other modules rely on. */
module Text {

  /** unicode.IsSpace. */
  predicate IsSpace(c: char) {
    || c == ' ' || '\t' <= c <= '\r' || c == '\U{0085}' || c == '\U{00A0}' || c == '\U{1680}'
    || '\U{2000}' <= c <= '\U{200A}' || c == '\U{2028}' || c == '\U{2029}'
    || c == '\U{202F}' || c == '\U{205F}' || c == '\U{3000}'
  }

  function TrimLeft(s: string): string {
    if s == "" || !IsSpace(s[0]) then s else TrimLeft(s[1..])
  }

  function TrimRight(s: string): string {
    if s == "" || !IsSpace(s[|s| - 1]) then s else TrimRight(s[..|s| - 1])
  }

  /** strings.TrimSpace. */
  function TrimSpace(s: string): string {
    TrimRight(TrimLeft(s))
  }

  /** No white space at either end. */
  predicate Trimmed(s: string) {
    s == "" || (!IsSpace(s[0]) && !IsSpace(s[|s| - 1]))
  }

  lemma {:induction false} TrimLeftCuts(s: string)
    ensures var r := TrimLeft(s);
            |r| <= |s| && r == s[|s| - |r|..] && (r == "" || !IsSpace(r[0]))
  {
    if s != "" && IsSpace(s[0]) {
      TrimLeftCuts(s[1..]);
    }
  }

  lemma {:induction false} TrimRightCuts(s: string)
    ensures var r := TrimRight(s);
            |r| <= |s| && r == s[..|r|] && (r == "" || !IsSpace(r[|r| - 1]))
  {
    if s != "" && IsSpace(s[|s| - 1]) {
      TrimRightCuts(s[..|s| - 1]);
    }
  }

  lemma TrimSpaceIsTrimmed(s: string)
    ensures Trimmed(TrimSpace(s)) && |TrimSpace(s)| <= |s|
  {
    var l := TrimLeft(s);
    TrimLeftCuts(s);
    TrimRightCuts(l);
    var r := TrimRight(l);
    if r != "" {
      assert r[0] == l[0];
    }
  }

  /** What is cut off in front ends in white space. */
  lemma {:induction false} SpaceInFront(s: string)
    ensures |TrimLeft(s)| <= |s|
    ensures |TrimLeft(s)| < |s| ==> IsSpace(s[|s| - |TrimLeft(s)| - 1])
  {
    if s != "" && IsSpace(s[0]) {
      SpaceInFront(s[1..]);
      var n := |TrimLeft(s[1..])|;
      assert n < |s| - 1 ==> s[1..][|s| - 1 - n - 1] == s[|s| - n - 1];
    }
  }

  lemma SpaceAtEnd(s: string)
    ensures |TrimRight(s)| < |s| ==> IsSpace(s[|s| - 1])
  {
  }

  lemma PlaceOf(s: string, l: string, r: string, a: nat)
    requires a + |l| == |s| && l == s[a..] && |r| <= |l| && r == l[..|r|]
    ensures r == s[a..a + |r|] && (|l| > 0 ==> l[|l| - 1] == s[|s| - 1])
  {
  }

  /** Where the trimmed text stands: white space is before it and, if anything, at the very end. */
  lemma TrimSpacePlace(s: string) returns (a: nat)
    ensures var r := TrimSpace(s);
            && a + |r| <= |s| && r == s[a..a + |r|]
            && (a > 0 ==> IsSpace(s[a - 1])) && (a + |r| < |s| ==> IsSpace(s[|s| - 1]))
  {
    var l := TrimLeft(s);
    var r := TrimRight(l);
    TrimLeftCuts(s);
    TrimRightCuts(l);
    a := |s| - |l|;
    PlaceOf(s, l, r, a);
    SpaceInFront(s);
    SpaceAtEnd(l);
  }

  lemma TrimSpaceOfTrimmed(s: string)
    requires Trimmed(s)
    ensures TrimSpace(s) == s
  {
  }

  predicate AllSpace(s: string) {
    forall i | 0 <= i < |s| :: IsSpace(s[i])
  }

  lemma {:induction false} TrimLeftSkips(lead: string, a: string)
    requires AllSpace(lead)
    ensures TrimLeft(lead + a) == TrimLeft(a)
  {
    if lead == "" {
      assert lead + a == a;
    } else {
      assert (lead + a)[1..] == lead[1..] + a;
      TrimLeftSkips(lead[1..], a);
    }
  }

  lemma {:induction false} TrimRightKeeps(a: string, c: string)
    requires a != "" && !IsSpace(a[|a| - 1])
    ensures TrimRight(a + c) == a + TrimRight(c)
    decreases |c|
  {
    var s := a + c;
    if c == "" {
      assert s == a && a + "" == a;
    } else if IsSpace(c[|c| - 1]) {
      assert s[..|s| - 1] == a + c[..|c| - 1];
      TrimRightKeeps(a, c[..|c| - 1]);
    }
  }

  lemma TrimSpaceKeeps(a: string, c: string)
    requires a != "" && !IsSpace(a[0]) && !IsSpace(a[|a| - 1])
    ensures TrimSpace(a + c) == a + TrimRight(c)
  {
    assert (a + c)[0] == a[0];
    TrimRightKeeps(a, c);
  }

  lemma {:induction false} TrimRightOfSpace(c: string)
    requires AllSpace(c)
    ensures TrimRight(c) == ""
    decreases |c|
  {
    if c != "" {
      TrimRightOfSpace(c[..|c| - 1]);
    }
  }

  /** White space around a text does not matter. */
  lemma TrimAround(lead: string, s: string, trail: string)
    requires AllSpace(lead) && AllSpace(trail) && Trimmed(s)
    ensures TrimSpace(lead + s + trail) == s
  {
    assert lead + s + trail == lead + (s + trail);
    TrimLeftSkips(lead, s + trail);
    TrimRightOfSpace(trail);
    if s == "" {
      assert s + trail == trail;
      TrimLeftSkips(trail, "");
      assert trail + "" == trail && TrimLeft("") == "";
    } else {
      assert (s + trail)[0] == s[0];
      assert TrimLeft(s + trail) == s + trail;
      TrimRightKeeps(s, trail);
      assert s + "" == s;
    }
  }

  predicate HasPrefix(s: string, p: string) {
    |p| <= |s| && s[..|p|] == p
  }

  predicate HasSuffix(s: string, p: string) {
    |p| <= |s| && s[|s| - |p|..] == p
  }

  /** strings.Contains. */
  predicate Contains(s: string, p: string) {
    HasPrefix(s, p) || (s != "" && Contains(s[1..], p))
  }

  function TrimSuffix(s: string, p: string): string {
    if HasSuffix(s, p) then s[..|s| - |p|] else s
  }

  /** Index of the first `c`, or the length of `s` when there is none. */
  function IndexOf(s: string, c: char): (i: nat)
    ensures i <= |s|
    ensures forall j | 0 <= j < i :: s[j] != c
    ensures i < |s| ==> s[i] == c
  {
    if s == "" then 0
    else if s[0] == c then 0
    else
      IndexOf(s[1..], c) + 1
  }

  lemma IndexOfAt(a: string, c: char, b: string)
    requires c !in a
    ensures IndexOf(a + [c] + b, c) == |a|
  {
    var s := a + [c] + b;
    var i := IndexOf(s, c);
    assert s[|a|] == c;
    assert forall j | 0 <= j < |a| :: s[j] == a[j];
  }

  lemma IndexOfAbsent(s: string, c: char)
    requires c !in s
    ensures IndexOf(s, c) == |s|
  {
  }

  /** strings.Split on a one-character separator. */
  function Split(s: string, sep: char): (parts: seq<string>)
    ensures |parts| > 0
    ensures forall p | p in parts :: sep !in p
    decreases |s|
  {
    var i := IndexOf(s, sep);
    if i == |s| then
      assert s[..i] == s;
      [s]
    else [s[..i]] + Split(s[i + 1..], sep)
  }

  /** strings.Join with a one-character separator. */
  function Join(parts: seq<string>, sep: char): string {
    if |parts| == 0 then ""
    else if |parts| == 1 then parts[0]
    else parts[0] + [sep] + Join(parts[1..], sep)
  }

  lemma {:induction false} SplitJoin(parts: seq<string>, sep: char)
    requires |parts| > 0
    requires forall p | p in parts :: sep !in p
    ensures Split(Join(parts, sep), sep) == parts
  {
    if |parts| == 1 {
      IndexOfAbsent(parts[0], sep);
      assert parts == [parts[0]];
    } else {
      var rest := Join(parts[1..], sep);
      var s := parts[0] + [sep] + rest;
      IndexOfAt(parts[0], sep, rest);
      assert s[..|parts[0]|] == parts[0];
      assert s[|parts[0]| + 1..] == rest;
      SplitJoin(parts[1..], sep);
      assert parts == [parts[0]] + parts[1..];
    }
  }

  lemma FirstPart(s: string, sep: char) returns (head: string, rest: string)
    requires sep in s
    ensures s == head + [sep] + rest
    ensures Split(s, sep) == [head] + Split(rest, sep)
  {
    var i := IndexOf(s, sep);
    head, rest := s[..i], s[i + 1..];
  }

  lemma OnePart(s: string, sep: char)
    requires sep !in s
    ensures Split(s, sep) == [s]
  {
    IndexOfAbsent(s, sep);
  }

  lemma {:induction false} JoinOfSplit(s: string, sep: char)
    ensures Join(Split(s, sep), sep) == s
    decreases |s|
  {
    if sep in s {
      var head, rest := FirstPart(s, sep);
      JoinOfSplit(rest, sep);
      JoinCons(head, Split(rest, sep), sep);
    } else {
      OnePart(s, sep);
    }
  }

  lemma JoinCons(first: string, rest: seq<string>, sep: char)
    requires |rest| > 0
    ensures Join([first] + rest, sep) == first + [sep] + Join(rest, sep)
  {
    assert ([first] + rest)[1..] == rest;
  }

  lemma {:induction false} JoinSnoc(parts: seq<string>, last: string, sep: char)
    requires |parts| > 0
    ensures Join(parts + [last], sep) == Join(parts, sep) + [sep] + last
  {
    if |parts| == 1 {
      assert parts + [last] == [parts[0], last];
      assert (parts + [last])[1..] == [last];
    } else {
      assert (parts + [last])[1..] == parts[1..] + [last];
      JoinSnoc(parts[1..], last, sep);
    }
  }

  /** Lower-casing, ASCII letters only. */
  function LowerChar(c: char): char {
    if 'A' <= c <= 'Z' then (c as int + 32) as char else c
  }

  function ToLower(s: string): (r: string)
    ensures |r| == |s|
    ensures forall i | 0 <= i < |s| :: r[i] == LowerChar(s[i])
  {
    seq(|s|, i requires 0 <= i < |s| => LowerChar(s[i]))
  }

  /** strings.EqualFold, ASCII letters only. */
  predicate EqualFold(a: string, b: string) {
    ToLower(a) == ToLower(b)
  }

  predicate IsLower(s: string) {
    forall i | 0 <= i < |s| :: !('A' <= s[i] <= 'Z')
  }

  lemma ToLowerFixed(s: string)
    requires IsLower(s)
    ensures ToLower(s) == s
  {
  }

  lemma LowerConcat(a: string, b: string)
    ensures ToLower(a + b) == ToLower(a) + ToLower(b)
  {
  }

  lemma LowerTwice(s: string)
    ensures ToLower(ToLower(s)) == ToLower(s) && IsLower(ToLower(s))
  {
  }

  /** Upper-case letters become the lower-case ones, in order; all other characters stay. */
  lemma LowerLetters(c: char)
    ensures ToLower("ABCDEFGHIJKLMNOPQRSTUVWXYZ") == "abcdefghijklmnopqrstuvwxyz"
    ensures !('A' <= c <= 'Z') ==> ToLower([c]) == [c]
  {
  }

  lemma SuffixMeans(s: string, p: string)
    ensures HasSuffix(s, p) <==> exists a: string :: s == a + p
    ensures forall a: string :: TrimSuffix(a + p, p) == a
  {
    if HasSuffix(s, p) {
      assert s == s[..|s| - |p|] + p;
    }
    forall a: string ensures TrimSuffix(a + p, p) == a {
      assert (a + p)[|a|..] == p && (a + p)[..|a|] == a;
    }
  }

  lemma {:induction false} ContainsMeans(s: string, p: string)
    ensures Contains(s, p) <==> exists a: string, b: string :: s == a + p + b
  {
    if HasPrefix(s, p) {
      assert s == "" + p + s[|p|..];
    } else if s != "" {
      ContainsMeans(s[1..], p);
      if a: string, b: string :| s[1..] == a + p + b {
        assert s == ([s[0]] + a) + p + b;
      }
    }
    if a: string, b: string :| s == a + p + b {
      if a == "" {
        assert s[..|p|] == p;
      } else {
        assert s[1..] == a[1..] + p + b;
      }
    }
  }

  /** Go's `<` on strings. */
  predicate Less(a: string, b: string) {
    b != "" && (a == "" || a[0] < b[0] || (a[0] == b[0] && Less(a[1..], b[1..])))
  }

  lemma {:induction false} LessTransitive(a: string, b: string, c: string)
    requires Less(a, b) && Less(b, c)
    ensures Less(a, c)
  {
    if a != "" && a[0] == b[0] && b[0] == c[0] {
      LessTransitive(a[1..], b[1..], c[1..]);
    }
  }

  lemma {:induction false} LessTotal(a: string, b: string)
    ensures Less(a, b) || Less(b, a) || a == b
    ensures !(Less(a, b) && Less(b, a))
    ensures !Less(a, a)
  {
    if a != "" && b != "" {
      LessTotal(a[1..], b[1..]);
      LessTotal(a[1..], a[1..]);
      assert a == [a[0]] + a[1..] && b == [b[0]] + b[1..];
    } else if a != "" {
      LessTotal(a[1..], a[1..]);
    }
  }

  /** Strings are ordered by their first different characters; a proper prefix comes first. */
  lemma {:induction false} LessMeans(common: string, x: char, a: string, y: char, b: string)
    requires x < y
    ensures Less(common + [x] + a, common + [y] + b) && Less(common, common + [y] + b)
  {
    var s, t := common + [x] + a, common + [y] + b;
    if common != "" {
      assert s[1..] == common[1..] + [x] + a && t[1..] == common[1..] + [y] + b;
      LessMeans(common[1..], x, a, y, b);
    }
  }

  // Decimal text of an integer.

  function Digit(d: nat): char
    requires d < 10
  {
    ('0' as int + d) as char
  }

  function Digits(n: nat): (s: string)
    ensures |s| > 0 && forall c | c in s :: '0' <= c <= '9'
  {
    if n < 10 then [Digit(n)] else Digits(n / 10) + [Digit(n % 10)]
  }

  function FormatInt(n: int): string {
    if n < 0 then "-" + Digits(-n) else Digits(n)
  }
}
