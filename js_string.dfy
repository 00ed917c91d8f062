/**
 * The ECMAScript String and Array built-ins that the MRZ parser relies on,
 * modelled on `string` (a sequence of characters): `indexOf`/`includes`,
 * `split` with a string separator, `trim`, `substring`, a global
 * single-character `replace`, `filter(Boolean)`, `padStart`, `String(n)`
 * for a non-negative integer and `parseInt(s, 10)` on a string of digits.
 */
module JsString {

  /** The code points ECMAScript's WhiteSpace and LineTerminator productions
      accept: exactly what `String.prototype.trim` strips from both ends. */
  predicate IsWhitespace(c: char) {
    || c == '\t' || c == '\n' || c == '\U{000B}' || c == '\U{000C}' || c == '\r'
    || c == ' ' || c == '\U{00A0}' || c == '\U{1680}'
    || ('\U{2000}' <= c <= '\U{200A}')
    || c == '\U{2028}' || c == '\U{2029}' || c == '\U{202F}' || c == '\U{205F}'
    || c == '\U{3000}' || c == '\U{FEFF}'
  }

  /** The regular-expression class `\d` (without the `u` flag): ASCII digits. */
  predicate IsAsciiDigit(c: char) {
    '0' <= c <= '9'
  }

  predicate AllDigits(s: string) {
    forall i :: 0 <= i < |s| ==> IsAsciiDigit(s[i])
  }

  function DigitValue(c: char): (d: nat)
    requires IsAsciiDigit(c)
    ensures d < 10
  {
    c as int - '0' as int
  }

  function DigitChar(d: nat): (c: char)
    requires d < 10
    ensures IsAsciiDigit(c) && DigitValue(c) == d
  {
    ('0' as int + d) as char
  }

  function Min(a: int, b: int): int {
    if a <= b then a else b
  }

  function Max(a: int, b: int): int {
    if a <= b then b else a
  }

  // ---------------------------------------------------------------------------
  // Searching: indexOf and includes

  /** `t` occurs in `s` starting at position `k`. */
  predicate OccursAt(s: string, t: string, k: int) {
    0 <= k && k + |t| <= |s| && s[k..k + |t|] == t
  }

  lemma {:induction false} OccursAtTail(s: string, t: string, k: int)
    requires |s| > 0 && 0 <= k
    ensures OccursAt(s, t, k + 1) <==> OccursAt(s[1..], t, k)
  {
    if k + 1 + |t| <= |s| {
      assert s[1..][k..k + |t|] == s[k + 1..k + 1 + |t|];
    }
  }

  /** The occurrences in `s` after its first character are those of `s[1..]`,
      shifted by one. */
  lemma {:induction false} OccursAtShift(s: string, t: string)
    requires |s| > 0
    ensures forall k :: 0 <= k ==> (OccursAt(s, t, k + 1) <==> OccursAt(s[1..], t, k))
    ensures forall k :: OccursAt(s, t, k) ==> k == 0 || OccursAt(s[1..], t, k - 1)
  {
    forall k | 0 <= k ensures OccursAt(s, t, k + 1) <==> OccursAt(s[1..], t, k) {
      OccursAtTail(s, t, k);
    }
  }

  /** `s.indexOf(t)`: the first position at which `t` occurs in `s`, or -1. */
  function IndexOf(s: string, t: string): (r: int)
    ensures r == -1 || OccursAt(s, t, r)
    ensures r == -1 ==> forall k :: !OccursAt(s, t, k)
    ensures forall k :: 0 <= k < r ==> !OccursAt(s, t, k)
    decreases |s|
  {
    if |s| < |t| then -1
    else if s[..|t|] == t then 0
    else
      var r := IndexOf(s[1..], t);
      OccursAtShift(s, t);
      if r == -1 then -1 else r + 1
  }

  /** `s.includes(t)`. */
  predicate Includes(s: string, t: string) {
    IndexOf(s, t) >= 0
  }

  // ---------------------------------------------------------------------------
  // split and its inverse

  /** `s.split(sep)` for a non-empty separator: the pieces between successive
      non-overlapping occurrences of `sep`, searched left to right. */
  function Split(s: string, sep: string): (parts: seq<string>)
    requires sep != []
    ensures |parts| >= 1
    decreases |s|
  {
    var i := IndexOf(s, sep);
    if i < 0 then [s] else [s[..i]] + Split(s[i + |sep|..], sep)
  }

  /** `parts.join(sep)`. */
  function Join(parts: seq<string>, sep: string): string {
    if |parts| == 0 then []
    else if |parts| == 1 then parts[0]
    else parts[0] + sep + Join(parts[1..], sep)
  }

  // ---------------------------------------------------------------------------
  // trim

  /** Leading whitespace removed: the longest suffix of `s` that does not
      start with whitespace. */
  function TrimStart(s: string): string {
    if |s| > 0 && IsWhitespace(s[0]) then TrimStart(s[1..]) else s
  }

  /** Trailing whitespace removed: the longest prefix of `s` that does not
      end with whitespace. */
  function TrimEnd(s: string): string {
    if |s| > 0 && IsWhitespace(s[|s| - 1]) then TrimEnd(s[..|s| - 1]) else s
  }

  /** `s.trim()`. */
  function Trim(s: string): string {
    TrimEnd(TrimStart(s))
  }

  /** A string with no whitespace at either end. */
  predicate IsTrimmed(s: string) {
    s == [] || (!IsWhitespace(s[0]) && !IsWhitespace(s[|s| - 1]))
  }

  // ---------------------------------------------------------------------------
  // substring

  function Clamp(i: int, len: nat): (r: nat)
    ensures r <= len
  {
    if i < 0 then 0 else if i > len then len else i
  }

  /** `s.substring(start, end)`: both ends clamped to `0..|s|`, swapped when
      the first exceeds the second. Never fails. */
  function Substring(s: string, start: int, end: int): (r: string)
    ensures 0 <= start <= end ==> r == s[Min(start, |s|)..Min(end, |s|)]
    ensures |r| <= |s|
  {
    var a := Clamp(start, |s|);
    var b := Clamp(end, |s|);
    if a <= b then s[a..b] else s[b..a]
  }

  /** `s.substring(start)`: from `start` (clamped) to the end. */
  function SubstringFrom(s: string, start: int): (r: string)
    ensures 0 <= start ==> r == s[Min(start, |s|)..]
  {
    Substring(s, start, |s|)
  }

  // ---------------------------------------------------------------------------
  // replace(/x/g, y) and replace(/x/g, "")

  /** `s.replace(/c/g, d)` for single characters `c` and `d`. */
  function ReplaceChar(s: string, c: char, d: char): string {
    seq(|s|, i requires 0 <= i < |s| => if s[i] == c then d else s[i])
  }

  /** `s.replace(/c/g, "")`: every occurrence of `c` deleted. */
  function RemoveChar(s: string, c: char): string {
    if s == [] then []
    else (if s[0] == c then [] else [s[0]]) + RemoveChar(s[1..], c)
  }

  /** `a` can be obtained from `b` by deleting elements. */
  predicate IsSubsequence<T(==)>(a: seq<T>, b: seq<T>)
    decreases |b|
  {
    if a == [] then true
    else if b == [] then false
    else if a[0] == b[0] then IsSubsequence(a[1..], b[1..])
    else IsSubsequence(a, b[1..])
  }

  // ---------------------------------------------------------------------------
  // map(l => l.trim()) on an array of strings

  /** `xs.map(l => l.trim())`. */
  function TrimEach(xs: seq<string>): (r: seq<string>)
    ensures |r| == |xs|
  {
    seq(|xs|, i requires 0 <= i < |xs| => Trim(xs[i]))
  }

  // ---------------------------------------------------------------------------
  // filter(Boolean) on an array of strings

  /** `xs.filter(Boolean)`: the empty strings dropped, the rest kept in order. */
  function DropEmpty(xs: seq<string>): (r: seq<string>)
    ensures |r| <= |xs|
    ensures forall l <- r :: l != [] && l in xs
    ensures forall x <- xs :: x != [] ==> x in r
  {
    if xs == [] then []
    else (if xs[0] == [] then [] else [xs[0]]) + DropEmpty(xs[1..])
  }

  // ---------------------------------------------------------------------------
  // Numbers: String(n), padStart, parseInt(s, 10)

  /** `String(n)` for a non-negative integer: its decimal digits, with no
      leading zero. */
  function NatToString(n: nat): string
  {
    if n < 10 then [DigitChar(n)] else NatToString(n / 10) + [DigitChar(n % 10)]
  }

  /** `parseInt(s, 10)` on a non-empty string of ASCII digits. On "" this
      gives 0, where `parseInt` gives NaN; the parser only passes two-digit
      strings. */
  function ParseDecimal(s: string): nat
    requires AllDigits(s)
  {
    if s == [] then 0
    else 10 * ParseDecimal(s[..|s| - 1]) + DigitValue(s[|s| - 1])
  }

  /** `s.padStart(n, pad)` with a one-character pad string. */
  function PadStart(s: string, n: nat, pad: char): string
  {
    if |s| >= n then s else seq(n - |s|, _ => pad) + s
  }

  // ---------------------------------------------------------------------------
  // Lemmas: searching

  /** `IndexOf` is determined by its contract: an occurrence with none before it. */
  lemma {:induction false} IndexOfIsFirst(s: string, t: string, r: int)
    requires OccursAt(s, t, r)
    requires forall k :: 0 <= k < r ==> !OccursAt(s, t, k)
    ensures IndexOf(s, t) == r
  {
  }

  /** `s` holds no two adjacent copies of `c`. */
  predicate NoDoubled(s: string, c: char) {
    forall i :: 0 <= i < |s| - 1 ==> s[i] != c || s[i + 1] != c
  }

  /** In `a + [c, c] + b`, where `a` holds no `[c, c]` and does not end
      with `c`, the first `[c, c]` starts right after `a`. */
  lemma {:induction false} IndexOfDoubled(a: string, c: char, b: string)
    requires NoDoubled(a, c) && (a == [] || a[|a| - 1] != c)
    ensures IndexOf(a + [c, c] + b, [c, c]) == |a|
  {
    var s := a + [c, c] + b;
    assert s[|a|..|a| + 2] == [c, c];
    forall k | 0 <= k < |a|
      ensures !OccursAt(s, [c, c], k)
    {
      assert s[k] == a[k];
      assert s[k..k + 2][0] == s[k] && s[k..k + 2][1] == s[k + 1];
      if k + 1 < |a| {
        assert s[k + 1] == a[k + 1];
      }
    }
    IndexOfIsFirst(s, [c, c], |a|);
  }

  lemma {:induction false} OccursInPrefix(s: string, n: nat, t: string, k: int)
    requires n <= |s| && OccursAt(s[..n], t, k)
    ensures OccursAt(s, t, k)
  {
    assert s[..n][k..k + |t|] == s[k..k + |t|];
  }

  lemma {:induction false} OccursInExtension(s: string, x: string, t: string, k: int)
    requires OccursAt(s, t, k)
    ensures OccursAt(s + x, t, k)
  {
    assert (s + x)[k..k + |t|] == s[k..k + |t|];
  }

  lemma {:induction false} OccursInExtensionIff(s: string, x: string, t: string, k: int)
    requires 0 <= k && k + |t| <= |s|
    ensures OccursAt(s + x, t, k) <==> OccursAt(s, t, k)
  {
    assert (s + x)[k..k + |t|] == s[k..k + |t|];
  }

  /** Appending text after an occurrence of `t` does not move the first one. */
  lemma {:induction false} IndexOfExtend(s: string, x: string, t: string)
    requires Includes(s, t)
    ensures IndexOf(s + x, t) == IndexOf(s, t)
  {
    var r := IndexOf(s, t);
    OccursInExtension(s, x, t, r);
    forall k | 0 <= k < r ensures !OccursAt(s + x, t, k) {
      OccursInExtensionIff(s, x, t, k);
    }
    IndexOfIsFirst(s + x, t, r);
  }

  /** For a one-character needle, `includes` is membership. */
  lemma {:induction false} IncludesChar(s: string, c: char)
    ensures Includes(s, [c]) <==> c in s
  {
    if c in s {
      var k :| 0 <= k < |s| && s[k] == c;
      assert s[k..k + 1] == [c];
      assert OccursAt(s, [c], k);
    }
    if Includes(s, [c]) {
      var k := IndexOf(s, [c]);
      assert s[k..k + 1] == [c];
      assert s[k] == c;
    }
  }

  // ---------------------------------------------------------------------------
  // Lemmas: split

  /** Joining the pieces of a split with the same separator gives back the text. */
  lemma {:induction false} SplitJoin(s: string, sep: string)
    requires sep != []
    ensures Join(Split(s, sep), sep) == s
    decreases |s|
  {
    var i := IndexOf(s, sep);
    if i >= 0 {
      var rest := s[i + |sep|..];
      var tail := Split(rest, sep);
      SplitJoin(rest, sep);
      assert Split(s, sep) == [s[..i]] + tail;
      assert ([s[..i]] + tail)[1..] == tail;
      assert s == s[..i] + s[i..i + |sep|] + rest;
    }
  }

  /** No piece of a split contains the separator. */
  lemma {:induction false} SplitPiecesAvoidSep(s: string, sep: string)
    requires sep != []
    ensures forall p <- Split(s, sep) :: !Includes(p, sep)
    decreases |s|
  {
    var i := IndexOf(s, sep);
    if i >= 0 {
      var rest := s[i + |sep|..];
      SplitPiecesAvoidSep(rest, sep);
      if Includes(s[..i], sep) {
        var k := IndexOf(s[..i], sep);
        OccursInPrefix(s, i, sep, k);
        assert false;
      }
      assert Split(s, sep) == [s[..i]] + Split(rest, sep);
    }
  }

  /** The first piece is the text before the first separator (all of it when
      there is none); there is a second piece exactly when the separator
      occurs, and it ends at the next separator after the first. */
  lemma {:induction false} SplitFirstPieces(s: string, sep: string)
    requires sep != []
    ensures var parts := Split(s, sep); var i := IndexOf(s, sep);
      && (i < 0 ==> parts == [s])
      && (i >= 0 ==>
            && |parts| >= 2
            && parts[0] == s[..i]
            && var rest := s[i + |sep|..]; var j := IndexOf(rest, sep);
               parts[1] == if j < 0 then rest else rest[..j])
  {
  }

  lemma {:induction false} DropAppend(u: string, v: string, k: nat)
    requires k <= |u|
    ensures (u + v)[k..] == u[k..] + v
  {
    assert forall j :: 0 <= j < |u| + |v| - k ==> (u + v)[k..][j] == (u[k..] + v)[j];
  }

  /** One step of `Split` at a known first occurrence. */
  lemma {:induction false} SplitAt(s: string, sep: string, i: nat)
    requires sep != [] && IndexOf(s, sep) == i
    ensures Split(s, sep) == [s[..i]] + Split(s[i + |sep|..], sep)
  {
  }

  /** The first occurrence of `c` in `a + [c] + b` when `c` is not in `a`. */
  lemma {:induction false} IndexOfCharAfter(a: string, c: char, b: string)
    requires c !in a
    ensures IndexOf(a + [c] + b, [c]) == |a|
  {
    var s := a + [c] + b;
    assert OccursAt(s, [c], |a|) by { assert s[|a|..|a| + 1] == [c]; }
    forall k | 0 <= k < |a| ensures !OccursAt(s, [c], k) {
      assert s[k] == a[k] != c;
    }
    IndexOfIsFirst(s, [c], |a|);
  }

  /** Splitting on a one-character separator distributes over a join at that
      character. */
  lemma {:induction false} SplitCharConcat(a: string, c: char, b: string)
    ensures Split(a + [c] + b, [c]) == Split(a, [c]) + Split(b, [c])
    decreases |a|
  {
    IncludesChar(a, c);
    if c in a {
      var i := IndexOf(a, [c]);
      SplitCharConcatStep(a, c, b, i);
      SplitCharConcat(a[i + 1..], c, b);
      ConcatAssoc([a[..i]], Split(a[i + 1..], [c]), Split(b, [c]));
    } else {
      SplitCharConcatBase(a, c, b);
    }
  }

  lemma {:induction false} ConcatAssoc(x: seq<string>, y: seq<string>, z: seq<string>)
    ensures x + (y + z) == (x + y) + z
  {
  }

  /** `SplitCharConcat` when `a` holds no separator. */
  lemma {:induction false} SplitCharConcatBase(a: string, c: char, b: string)
    requires c !in a
    ensures Split(a + [c] + b, [c]) == Split(a, [c]) + Split(b, [c])
  {
    var s := a + [c] + b;
    IncludesChar(a, c);
    IndexOfCharAfter(a, c, b);
    SplitAt(s, [c], |a|);
    assert s[..|a|] == a;
    assert s[|a| + 1..] == b;
  }

  lemma {:induction false} SplitCharConcatStep(a: string, c: char, b: string, i: int)
    requires i == IndexOf(a, [c]) && i >= 0
    ensures Split(a + [c] + b, [c]) == [a[..i]] + Split(a[i + 1..] + [c] + b, [c])
    ensures Split(a, [c]) == [a[..i]] + Split(a[i + 1..], [c])
  {
    var s := a + [c] + b;
    assert s == a + ([c] + b);
    IndexOfExtend(a, [c] + b, [c]);
    SplitAt(s, [c], i);
    SplitAt(a, [c], i);
    assert s[..i] == a[..i];
    DropAppend(a, [c] + b, i + 1);
    assert s[i + 1..] == a[i + 1..] + [c] + b;
  }

  // ---------------------------------------------------------------------------
  // Lemmas: trim

  /** `TrimStart(s)` is the longest suffix of `s` that does not start with
      white space. */
  lemma {:induction false} TrimStartSpec(s: string)
    ensures var r := TrimStart(s);
      && |r| <= |s| && r == s[|s| - |r|..]
      && (forall k :: 0 <= k < |s| - |r| ==> IsWhitespace(s[k]))
      && (r == [] || !IsWhitespace(r[0]))
    decreases |s|
  {
    if |s| > 0 && IsWhitespace(s[0]) {
      TrimStartSpec(s[1..]);
      var r := TrimStart(s);
      forall k | 1 <= k < |s| - |r|
        ensures IsWhitespace(s[k])
      {
        assert s[k] == s[1..][k - 1];
      }
    }
  }

  /** `TrimEnd(s)` is the longest prefix of `s` that does not end with
      white space. */
  lemma {:induction false} TrimEndSpec(s: string)
    ensures var r := TrimEnd(s);
      && |r| <= |s| && r == s[..|r|]
      && (forall k :: |r| <= k < |s| ==> IsWhitespace(s[k]))
      && (r == [] || !IsWhitespace(r[|r| - 1]))
    decreases |s|
  {
    if |s| > 0 && IsWhitespace(s[|s| - 1]) {
      TrimEndSpec(s[..|s| - 1]);
    }
  }

  /** `Trim(s)` is the slice of `s` left after removing whitespace at both
      ends: everything before and after it is whitespace. */
  lemma {:induction false} TrimIsSlice(s: string)
    ensures |TrimStart(s)| <= |s|
    ensures var a := |s| - |TrimStart(s)|; var r := Trim(s);
      && a + |r| <= |s|
      && r == s[a..a + |r|]
      && (forall k :: 0 <= k < a ==> IsWhitespace(s[k]))
      && (forall k :: a + |r| <= k < |s| ==> IsWhitespace(s[k]))
  {
    var t := TrimStart(s);
    TrimStartSpec(s);
    TrimEndSpec(t);
    SliceOfTrimmed(s, t, TrimEnd(t));
  }

  /** Removing a white-space prefix and then a white-space suffix leaves a
      slice with white space on both sides of it. */
  lemma {:induction false} SliceOfTrimmed(s: string, t: string, r: string)
    requires |t| <= |s| && t == s[|s| - |t|..]
    requires forall k :: 0 <= k < |s| - |t| ==> IsWhitespace(s[k])
    requires |r| <= |t| && r == t[..|r|]
    requires forall k :: |r| <= k < |t| ==> IsWhitespace(t[k])
    ensures var a := |s| - |t|;
      && a + |r| <= |s|
      && r == s[a..a + |r|]
      && (forall k :: a + |r| <= k < |s| ==> IsWhitespace(s[k]))
  {
    var a := |s| - |t|;
    assert t[..|r|] == s[a..a + |r|];
    forall k | a + |r| <= k < |s|
      ensures IsWhitespace(s[k])
    {
      assert s[k] == t[k - a];
    }
  }

  /** Trimming each string of a concatenation trims each part. */
  lemma {:induction false} TrimEachConcat(a: seq<string>, b: seq<string>)
    ensures TrimEach(a + b) == TrimEach(a) + TrimEach(b)
  {
    var l := TrimEach(a + b);
    var r := TrimEach(a) + TrimEach(b);
    forall i | 0 <= i < |a|
      ensures l[i] == r[i]
    {
      assert (a + b)[i] == a[i];
    }
    forall i | |a| <= i < |a + b|
      ensures l[i] == r[i]
    {
      assert (a + b)[i] == b[i - |a|];
    }
    assert |l| == |r|;
  }

  /** Trimming leaves an already trimmed string alone, so `trim` is idempotent. */
  lemma {:induction false} TrimTrimmed(s: string)
    ensures IsTrimmed(Trim(s))
    ensures IsTrimmed(s) ==> Trim(s) == s
    ensures Trim(Trim(s)) == Trim(s)
  {
    var t := TrimStart(s);
    var r := TrimEnd(t);
    TrimStartSpec(s);
    TrimEndSpec(t);
    if r != [] {
      assert r[0] == t[0];
    }
    if IsTrimmed(s) {
      TrimOfTrimmed(s);
    }
    TrimOfTrimmed(r);
  }

  lemma {:induction false} TrimOfTrimmed(s: string)
    requires IsTrimmed(s)
    ensures Trim(s) == s
  {
    assert TrimStart(s) == s;
    assert TrimEnd(s) == s;
  }

  /** Trimming introduces no character. */
  lemma {:induction false} TrimKeepsAbsent(s: string, c: char)
    requires c !in s
    ensures c !in Trim(s)
  {
    TrimIsSlice(s);
    var a := |s| - |TrimStart(s)|;
    var r := Trim(s);
    forall i | 0 <= i < |r| ensures r[i] != c {
      assert r[i] == s[a + i];
    }
  }

  // ---------------------------------------------------------------------------
  // Lemmas: replace

  /** Replacing `c` by a different `d` keeps the length and every other
      character, and leaves no `c`. */
  lemma {:induction false} ReplaceCharSpec(s: string, c: char, d: char)
    ensures |ReplaceChar(s, c, d)| == |s|
    ensures forall i :: 0 <= i < |s| ==>
      ReplaceChar(s, c, d)[i] == (if s[i] == c then d else s[i])
    ensures c != d ==> c !in ReplaceChar(s, c, d)
  {
  }

  /** Deleting `c` leaves no `c`, keeps the other characters in order, and
      shortens the string by the number of `c`s in it. */
  lemma {:induction false} RemoveCharSpec(s: string, c: char)
    ensures c !in RemoveChar(s, c)
    ensures IsSubsequence(RemoveChar(s, c), s)
    ensures |RemoveChar(s, c)| == |s| - multiset(s)[c]
  {
    if s != [] {
      var r := RemoveChar(s[1..], c);
      RemoveCharSpec(s[1..], c);
      assert s == [s[0]] + s[1..];
      assert multiset(s) == multiset([s[0]]) + multiset(s[1..]);
      if s[0] == c {
        assert RemoveChar(s, c) == r;
        if r != [] {
          assert r[0] != s[0];
        }
      } else {
        assert RemoveChar(s, c) == [s[0]] + r;
        assert ([s[0]] + r)[1..] == r;
      }
    }
  }

  /** Deleting a character that does not occur changes nothing. */
  lemma {:induction false} RemoveCharAbsent(s: string, c: char)
    requires c !in s
    ensures RemoveChar(s, c) == s
  {
    if s != [] {
      RemoveCharAbsent(s[1..], c);
      assert s == [s[0]] + s[1..];
    }
  }

  // ---------------------------------------------------------------------------
  // Lemmas: filter(Boolean)

  /** `filter(Boolean)` keeps the input's order and drops exactly its empty
      strings: the result is a subsequence of the input whose multiset is
      the input's without the empty string. */
  lemma {:induction false} DropEmptySpec(xs: seq<string>)
    ensures IsSubsequence(DropEmpty(xs), xs)
    ensures multiset(DropEmpty(xs)) == multiset(xs)[[] := 0]
  {
    DropEmptySubsequence(xs);
    DropEmptyMultiset(xs);
  }

  lemma {:induction false} DropEmptySubsequence(xs: seq<string>)
    ensures IsSubsequence(DropEmpty(xs), xs)
  {
    if xs != [] {
      var r := DropEmpty(xs[1..]);
      DropEmptySubsequence(xs[1..]);
      if xs[0] == [] {
        assert DropEmpty(xs) == r;
        if r != [] {
          DropEmptyNonEmpty(xs[1..]);
          assert r[0] in r;
        }
      } else {
        assert DropEmpty(xs) == [xs[0]] + r;
        assert ([xs[0]] + r)[1..] == r;
      }
    }
  }

  lemma {:induction false} DropEmptyMultiset(xs: seq<string>)
    ensures multiset(DropEmpty(xs)) == multiset(xs)[[] := 0]
  {
    if xs != [] {
      var r := DropEmpty(xs[1..]);
      DropEmptyMultiset(xs[1..]);
      assert xs == [xs[0]] + xs[1..];
      MultisetDropStep(xs[0], xs[1..]);
      if xs[0] != [] {
        assert multiset([xs[0]] + r) == multiset{xs[0]} + multiset(r);
      }
    }
  }

  /** Removing the empty string from the multiset of `[x] + t`. */
  lemma {:induction false} MultisetDropStep(x: string, t: seq<string>)
    ensures multiset([x] + t)[[] := 0]
         == if x == [] then multiset(t)[[] := 0] else multiset{x} + multiset(t)[[] := 0]
  {
    assert multiset([x] + t) == multiset{x} + multiset(t);
  }

  lemma {:induction false} DropEmptyNonEmpty(xs: seq<string>)
    ensures [] !in DropEmpty(xs)
  {
  }

  /** `filter(Boolean)` on a single string. */
  lemma {:induction false} DropEmptySingle(x: string)
    ensures DropEmpty([x]) == if x == [] then [] else [x]
  {
    assert [x][1..] == [];
  }

  /** `filter(Boolean)` distributes over concatenation. */
  lemma {:induction false} DropEmptyConcat(a: seq<string>, b: seq<string>)
    ensures DropEmpty(a + b) == DropEmpty(a) + DropEmpty(b)
  {
    if a != [] {
      DropEmptyConcat(a[1..], b);
      assert (a + b)[1..] == a[1..] + b;
    } else {
      assert a + b == b;
    }
  }

  // ---------------------------------------------------------------------------
  // Lemmas: numbers

  /** `String(n)` is a non-empty string of digits with no leading zero
      unless `n` is 0. */
  lemma {:induction false} NatToStringSpec(n: nat)
    ensures var r := NatToString(n);
      |r| >= 1 && AllDigits(r) && (r[0] != '0' || n == 0)
  {
    if n >= 10 {
      NatToStringSpec(n / 10);
      var r := NatToString(n);
      assert r[0] == NatToString(n / 10)[0];
    }
  }

  /** `padStart` yields the longer of the two lengths, ends with the
      input, and is the pad character before it. */
  lemma {:induction false} PadStartSpec(s: string, n: nat, pad: char)
    ensures var r := PadStart(s, n, pad);
      && |r| == Max(n, |s|)
      && r[|r| - |s|..] == s
      && forall k :: 0 <= k < |r| - |s| ==> r[k] == pad
  {
  }

  lemma {:induction false} ParseDecimalSnoc(s: string, c: char)
    requires AllDigits(s) && IsAsciiDigit(c)
    ensures AllDigits(s + [c]) && ParseDecimal(s + [c]) == 10 * ParseDecimal(s) + DigitValue(c)
  {
    assert (s + [c])[..|s|] == s;
  }

  /** `parseInt(String(n), 10) == n`. */
  lemma {:induction false} ParseNatToString(n: nat)
    ensures AllDigits(NatToString(n)) && ParseDecimal(NatToString(n)) == n
  {
    NatToStringSpec(n);
    if n < 10 {
      assert NatToString(n)[..0] == [];
    } else {
      ParseNatToString(n / 10);
      ParseDecimalSnoc(NatToString(n / 10), DigitChar(n % 10));
    }
  }

  lemma {:induction false} ParseDecimalLeadingNonZero(s: string)
    requires |s| >= 1 && AllDigits(s) && s[0] != '0'
    ensures ParseDecimal(s) >= 1
    decreases |s|
  {
    if |s| > 1 {
      ParseDecimalLeadingNonZero(s[..|s| - 1]);
    }
  }

  /** `String(parseInt(s, 10)) == s` for a digit string without a leading zero. */
  lemma {:induction false} NatToStringParse(s: string)
    requires |s| >= 1 && AllDigits(s) && (s[0] != '0' || |s| == 1)
    ensures NatToString(ParseDecimal(s)) == s
    decreases |s|
  {
    if |s| == 1 {
      assert s[..0] == [];
      assert [DigitChar(DigitValue(s[0]))] == s;
    } else {
      var init := s[..|s| - 1];
      ParseDecimalLeadingNonZero(init);
      NatToStringParse(init);
      var n := ParseDecimal(s);
      assert n / 10 == ParseDecimal(init) && n % 10 == DigitValue(s[|s| - 1]);
      assert s == init + [s[|s| - 1]];
    }
  }

  /** Every two-digit string, "00" included, is recovered by
      `String(parseInt(s, 10)).padStart(2, "0")`. */
  lemma {:induction false} PadStartTwoDigits(s: string)
    requires |s| == 2 && AllDigits(s)
    ensures PadStart(NatToString(ParseDecimal(s)), 2, '0') == s
  {
    var n := ParseDecimal(s);
    assert s[..1][..0] == [];
    if s[0] == '0' {
      assert ParseDecimal(s[..1]) == 10 * ParseDecimal(s[..1][..0]) + DigitValue(s[0]) == 0;
      assert n == DigitValue(s[1]) && n < 10;
      assert NatToString(n) == [s[1]];
    } else {
      NatToStringParse(s);
    }
  }
}
