/**
 * The JavaScript string operations the sources rely on, over `seq<char>`:
 * `trim`, `includes`, `indexOf`, `startsWith`, `endsWith`, `split`, literal
 * `replace` (first occurrence) and global replacement, and ASCII case mapping.
 */
module Text {
  import opened Common

  /** ECMAScript WhiteSpace and LineTerminator: what `\s` and `trim()` use. */
  predicate IsSpace(c: char) {
    var n := c as int;
    (0x09 <= n <= 0x0D) || n == 0x20 || n == 0xA0 || n == 0x1680
    || (0x2000 <= n <= 0x200A) || n == 0x2028 || n == 0x2029 || n == 0x202F
    || n == 0x205F || n == 0x3000 || n == 0xFEFF
  }

  predicate IsUpper(c: char) { 'A' <= c <= 'Z' }
  predicate IsLower(c: char) { 'a' <= c <= 'z' }
  predicate IsAsciiLetter(c: char) { IsUpper(c) || IsLower(c) }
  predicate IsDigit(c: char) { '0' <= c <= '9' }

  /** The regular-expression class `\w`. */
  predicate IsWordChar(c: char) { IsAsciiLetter(c) || IsDigit(c) || c == '_' }

  /** `toLowerCase` on one character, for ASCII letters; everything else is kept. */
  function LowerChar(c: char): (r: char)
    ensures IsUpper(c) ==> r as int == c as int + 32
    ensures !IsUpper(c) ==> r == c
    ensures !IsUpper(r)
  {
    if IsUpper(c) then (c as int + 32) as char else c
  }

  function UpperChar(c: char): (r: char)
    ensures IsLower(c) ==> r as int == c as int - 32
    ensures !IsLower(c) ==> r == c
    ensures !IsLower(r)
  {
    if IsLower(c) then (c as int - 32) as char else c
  }

  /** `toLowerCase`, with case mapping restricted to ASCII. */
  function ToLower(s: string): (r: string)
    ensures |r| == |s|
    ensures forall i :: 0 <= i < |s| ==> r[i] == LowerChar(s[i])
  {
    seq(|s|, i requires 0 <= i < |s| => LowerChar(s[i]))
  }

  function ToUpper(s: string): (r: string)
    ensures |r| == |s|
    ensures forall i :: 0 <= i < |s| ==> r[i] == UpperChar(s[i])
  {
    seq(|s|, i requires 0 <= i < |s| => UpperChar(s[i]))
  }

  lemma ToLowerIdempotent(s: string)
    ensures ToLower(ToLower(s)) == ToLower(s)
  {
  }

  /** Text without an upper-case ASCII letter is its own lower case. */
  lemma ToLowerOfLower(s: string)
    requires forall i :: 0 <= i < |s| ==> !IsUpper(s[i])
    ensures ToLower(s) == s
  {
  }

  predicate EqualsIgnoreCase(a: string, b: string) {
    ToLower(a) == ToLower(b)
  }

  // ---------------------------------------------------------------- trim

  function TrimStart(s: string): (r: string)
    ensures |r| <= |s|
    decreases |s|
  {
    if s != [] && IsSpace(s[0]) then TrimStart(s[1..]) else s
  }

  /** `TrimStart` drops a prefix of white space and stops at the first other
    * character. */
  lemma {:induction false} TrimStartShape(s: string)
    ensures var r := TrimStart(s);
      r == s[|s| - |r|..] && (r == [] || !IsSpace(r[0]))
      && forall i :: 0 <= i < |s| - |r| ==> IsSpace(s[i])
    decreases |s|
  {
    if s != [] && IsSpace(s[0]) {
      TrimStartShape(s[1..]);
    }
  }

  function TrimEnd(s: string): (r: string)
    ensures |r| <= |s|
    decreases |s|
  {
    if s != [] && IsSpace(s[|s| - 1]) then TrimEnd(s[..|s| - 1]) else s
  }

  /** `TrimEnd` drops a suffix of white space and stops at the last other
    * character. */
  lemma {:induction false} TrimEndShape(s: string)
    ensures var r := TrimEnd(s);
      r == s[..|r|] && (r == [] || !IsSpace(r[|r| - 1]))
      && forall i :: |r| <= i < |s| ==> IsSpace(s[i])
    decreases |s|
  {
    if s != [] && IsSpace(s[|s| - 1]) {
      TrimEndShape(s[..|s| - 1]);
    }
  }

  /** `trim()`: the input without its leading and trailing white space. */
  function Trim(s: string): string {
    TrimEnd(TrimStart(s))
  }

  /** `trim()` leaves a slice of the input that neither starts nor ends with space,
    * and everything it dropped is space. */
  lemma TrimShape(s: string)
    ensures var t := Trim(s); var a := |s| - |TrimStart(s)|;
      (t == [] || (!IsSpace(t[0]) && !IsSpace(t[|t| - 1])))
      && a + |t| <= |s| && t == s[a..a + |t|]
      && (forall i :: 0 <= i < a ==> IsSpace(s[i]))
      && (forall i :: a + |t| <= i < |s| ==> IsSpace(s[i]))
  {
    var u := TrimStart(s);
    var t := TrimEnd(u);
    var a := |s| - |u|;
    TrimStartShape(s);
    TrimEndShape(u);
    if t != [] {
      assert t[0] == u[0];
    }
    assert t == s[a..a + |t|];
    forall i | a + |t| <= i < |s| ensures IsSpace(s[i]) {
      assert s[i] == u[i - a];
    }
  }

  lemma TrimOfTrimmed(s: string)
    requires s == [] || (!IsSpace(s[0]) && !IsSpace(s[|s| - 1]))
    ensures Trim(s) == s
  {
    if s != [] {
      assert TrimStart(s) == s;
    }
  }

  // ------------------------------------------------------ search and match

  predicate StartsWith(s: string, p: string) { p <= s }

  predicate EndsWith(s: string, p: string) {
    |p| <= |s| && s[|s| - |p|..] == p
  }

  /** `p` occurs in `s` at index `i`. */
  predicate IsAt(s: string, p: string, i: int) {
    0 <= i && i + |p| <= |s| && s[i..i + |p|] == p
  }

  /** The first index at or after `k` where `p` occurs, or -1. */
  function FindFrom(s: string, p: string, k: nat): (r: int)
    ensures r == -1 || (k <= r && IsAt(s, p, r))
    decreases |s| - k
  {
    if k + |p| > |s| then -1
    else if IsAt(s, p, k) then k
    else FindFrom(s, p, k + 1)
  }

  /** `FindFrom` finds the first occurrence, and -1 means there is none. */
  lemma {:induction false} FindFromFirst(s: string, p: string, k: nat)
    ensures var r := FindFrom(s, p, k);
      (r != -1 ==> forall i :: k <= i < r ==> !IsAt(s, p, i))
      && (r == -1 ==> forall i :: k <= i ==> !IsAt(s, p, i))
    decreases |s| - k
  {
    if k + |p| <= |s| && !IsAt(s, p, k) {
      FindFromFirst(s, p, k + 1);
    }
  }

  /** `s.indexOf(p)`. */
  function IndexOf(s: string, p: string): int {
    FindFrom(s, p, 0)
  }

  /** `s.includes(p)`. */
  predicate Contains(s: string, p: string) {
    IndexOf(s, p) >= 0
  }

  lemma ContainsIff(s: string, p: string)
    ensures Contains(s, p) <==> exists i :: IsAt(s, p, i)
  {
    FindFromFirst(s, p, 0);
    if exists i :: IsAt(s, p, i) {
      var i :| IsAt(s, p, i);
      assert 0 <= i;
    }
  }

  lemma ContainsChar(s: string, c: char)
    ensures Contains(s, [c]) <==> c in s
  {
    ContainsIff(s, [c]);
    if Contains(s, [c]) {
      var i := IndexOf(s, [c]);
      assert s[i..i + 1][0] == s[i];
    }
    if c in s {
      var i :| 0 <= i < |s| && s[i] == c;
      assert IsAt(s, [c], i);
    }
  }

  // ---------------------------------------------------------- replacement

  /** `s.replace(p, r)` with a string pattern: only the first occurrence. */
  function ReplaceFirst(s: string, p: string, r: string): string {
    var i := IndexOf(s, p);
    if i < 0 then s else s[..i] + r + s[i + |p|..]
  }

  /** `s.replace(/p/g, r)` for a literal `p`: one left-to-right pass that
    * writes `r` for each occurrence and resumes after it, so matches are
    * leftmost and do not overlap. */
  function ReplaceAll(s: string, p: string, r: string): string
    requires |p| > 0
    decreases |s|
  {
    if s == [] then []
    else if IsAt(s, p, 0) then r + ReplaceAll(s[|p|..], p, r)
    else [s[0]] + ReplaceAll(s[1..], p, r)
  }

  /** Nothing before the first occurrence of `p` is an occurrence. */
  lemma HeadFree(s: string, p: string)
    requires |p| > 0
    ensures var i := IndexOf(s, p);
      i >= 0 ==> !Contains(s[..i], p)
  {
    var i := IndexOf(s, p);
    FindFromFirst(s, p, 0);
    if i >= 0 {
      var head := s[..i];
      ContainsIff(head, p);
      if exists j :: IsAt(head, p, j) {
        var j :| IsAt(head, p, j);
        assert head[j..j + |p|] == s[j..j + |p|];
        assert IsAt(s, p, j);
      }
    }
  }

  /** Replacing a character everywhere by text without it leaves none. */
  lemma {:induction false} ReplaceAllCharGone(s: string, c: char, r: string)
    requires c !in r
    ensures c !in ReplaceAll(s, [c], r)
    decreases |s|
  {
    if s != [] {
      if IsAt(s, [c], 0) {
        ReplaceAllCharGone(s[1..], c, r);
      } else {
        assert s[0] != c by {
          assert s[..1] == [s[0]];
        }
        ReplaceAllCharGone(s[1..], c, r);
      }
    }
  }

  /** Text without the pattern is left alone. */
  lemma {:induction false} ReplaceAllAbsent(s: string, p: string, r: string)
    requires |p| > 0 && !Contains(s, p)
    ensures ReplaceAll(s, p, r) == s
    decreases |s|
  {
    if s != [] {
      ContainsIff(s, p);
      ContainsIff(s[1..], p);
      assert !IsAt(s, p, 0);
      if Contains(s[1..], p) {
        ContainsInTail(s, p);
      }
      ReplaceAllAbsent(s[1..], p, r);
    }
  }

  /** An occurrence in the tail is an occurrence in the text. */
  lemma ContainsInTail(s: string, p: string)
    requires |s| > 0 && Contains(s[1..], p)
    ensures Contains(s, p)
  {
    ContainsIff(s[1..], p);
    var tail := s[1..];
    var i :| IsAt(tail, p, i);
    assert tail[i..i + |p|] == s[i + 1..i + 1 + |p|];
    assert IsAt(s, p, i + 1);
    ContainsIff(s, p);
  }

  // ------------------------------------------- case-insensitive removal

  /** `p` occurs in `s` at index `i`, ignoring ASCII case (a regular
    * expression built from `p` with the `i` flag). */
  predicate IsAtIgnoreCase(s: string, p: string, i: int) {
    0 <= i && i + |p| <= |s| && ToLower(s[i..i + |p|]) == ToLower(p)
  }

  function FindFromIgnoreCase(s: string, p: string, k: nat): (r: int)
    ensures r == -1 || (k <= r && IsAtIgnoreCase(s, p, r))
    decreases |s| - k
  {
    if k + |p| > |s| then -1
    else if IsAtIgnoreCase(s, p, k) then k
    else FindFromIgnoreCase(s, p, k + 1)
  }

  /** `s.replace(new RegExp(p, "gi"), "")` for a pattern without metacharacters. */
  function RemoveAllIgnoreCase(s: string, p: string): (r: string)
    requires |p| > 0
    ensures |r| <= |s|
    decreases |s|
  {
    var i := FindFromIgnoreCase(s, p, 0);
    if i < 0 then s else s[..i] + RemoveAllIgnoreCase(s[i + |p|..], p)
  }

  /** Removing each of `ps` in turn, as a `forEach` over a list of patterns does. */
  function RemoveEachIgnoreCase(s: string, ps: seq<string>): string
    requires forall k :: 0 <= k < |ps| ==> |ps[k]| > 0
    decreases |ps|
  {
    if ps == [] then s else RemoveEachIgnoreCase(RemoveAllIgnoreCase(s, ps[0]), ps[1..])
  }

  /** The value stored under `k`, with an absent key reading as the falsy `""`. */
  function Lookup(m: map<string, string>, k: string): string {
    if k in m then m[k] else ""
  }

  // --------------------------------------------------------------- split

  /** `s.split(sep)` with a non-empty string separator. */
  function Split(s: string, sep: string): (parts: seq<string>)
    requires |sep| > 0
    ensures |parts| >= 1
    decreases |s|
  {
    var i := IndexOf(s, sep);
    if i < 0 then [s] else [s[..i]] + Split(s[i + |sep|..], sep)
  }

  /** Joining the pieces of a split with the same separator gives the text back. */
  lemma {:induction false} SplitJoin(s: string, sep: string)
    requires |sep| > 0
    ensures Join(Split(s, sep), sep) == s
    decreases |s|
  {
    var i := IndexOf(s, sep);
    if i >= 0 {
      var rest := s[i + |sep|..];
      SplitJoin(rest, sep);
      JoinCons(s[..i], Split(rest, sep), sep);
      Reassemble(s, sep, i);
    }
  }

  /** Cutting out an occurrence and putting it back gives the text back. */
  lemma Reassemble(s: string, sep: string, i: int)
    requires IsAt(s, sep, i)
    ensures s == s[..i] + sep + s[i + |sep|..]
  {
    assert s == s[..i] + s[i..i + |sep|] + s[i + |sep|..];
  }

  lemma {:induction false} JoinCons(x: string, xs: seq<string>, sep: string)
    requires |xs| >= 1
    ensures Join([x] + xs, sep) == x + sep + Join(xs, sep)
    decreases |xs|
  {
    if |xs| == 1 {
      assert [x] + xs == [x, xs[0]];
    } else {
      var init := xs[..|xs| - 1];
      JoinCons(x, init, sep);
      assert ([x] + xs)[..|[x] + xs| - 1] == [x] + init;
    }
  }

  /** A split on one character cuts at its first occurrence. */
  lemma SplitCharCons(x: string, rest: string, c: char)
    requires c !in x
    ensures Split(x + [c] + rest, [c]) == [x] + Split(rest, [c])
  {
    var s := x + [c] + rest;
    var r := IndexOf(s, [c]);
    FindFromFirst(s, [c], 0);
    assert s[|x|..|x| + 1] == [c];
    assert IsAt(s, [c], |x|);
    assert 0 <= r <= |x|;
    assert s[r..r + 1][0] == s[r];
    assert forall i :: 0 <= i < |x| ==> s[i] == x[i];
    assert r == |x|;
    assert s[..r] == x;
    assert s[r + 1..] == rest;
  }

  /** Text without the separator character splits into itself. */
  lemma SplitCharNone(x: string, c: char)
    requires c !in x
    ensures Split(x, [c]) == [x]
  {
    ContainsChar(x, c);
  }

  /** Splitting pieces joined by a character they do not contain gives
    * the pieces back. */
  lemma {:induction false} JoinSplitChar(xs: seq<string>, c: char)
    requires |xs| >= 1
    requires forall k :: 0 <= k < |xs| ==> c !in xs[k]
    ensures Split(Join(xs, [c]), [c]) == xs
    decreases |xs|
  {
    if |xs| == 1 {
      SplitCharNone(xs[0], c);
    } else {
      var tail := xs[1..];
      assert xs == [xs[0]] + tail;
      JoinCons(xs[0], tail, [c]);
      SplitCharCons(xs[0], Join(tail, [c]), c);
      JoinSplitChar(tail, c);
    }
  }

  /** No piece of a split contains the separator. */
  lemma {:induction false} SplitPiecesFree(s: string, sep: string)
    requires |sep| > 0
    ensures forall k :: 0 <= k < |Split(s, sep)| ==> !Contains(Split(s, sep)[k], sep)
    decreases |s|
  {
    var i := IndexOf(s, sep);
    if i < 0 {
      assert Split(s, sep) == [s];
    } else {
      var rest := Split(s[i + |sep|..], sep);
      SplitPiecesFree(s[i + |sep|..], sep);
      HeadFree(s, sep);
      assert Split(s, sep) == [s[..i]] + rest;
      forall k | 0 <= k < |Split(s, sep)| ensures !Contains(Split(s, sep)[k], sep) {
        if k > 0 {
          assert Split(s, sep)[k] == rest[k - 1];
        }
      }
    }
  }

  // ------------------------------------------------------------- numbers

  function DigitChar(d: nat): char
    requires d < 10
  {
    ('0' as int + d) as char
  }

  /** The decimal digits of `n`, without leading zeros. */
  function NatToString(n: nat): (r: string)
    ensures r != [] && forall k :: 0 <= k < |r| ==> IsDigit(r[k])
    decreases n
  {
    if n < 10 then [DigitChar(n)] else NatToString(n / 10) + [DigitChar(n % 10)]
  }

  /** The number a string of decimal digits denotes. */
  function DigitsValue(s: string): int
    decreases |s|
  {
    if s == [] then 0 else DigitsValue(s[..|s| - 1]) * 10 + (s[|s| - 1] as int - '0' as int)
  }

  /** Reading the digits back gives the number, so distinct numbers are
    * written differently. */
  lemma {:induction false} NatToStringValue(n: nat)
    ensures DigitsValue(NatToString(n)) == n
    decreases n
  {
    if n >= 10 {
      NatToStringValue(n / 10);
      var s := NatToString(n / 10) + [DigitChar(n % 10)];
      assert s[..|s| - 1] == NatToString(n / 10);
    }
  }

  /** `String(n)` for an integral number. */
  function IntToString(n: int): (r: string)
    ensures r != [] && (r[0] == '-' <==> n < 0)
  {
    if n < 0 then "-" + NatToString(-n) else NatToString(n)
  }

  /** `s.substring(0, n)`. */
  function Prefix(s: string, n: nat): (r: string)
    ensures |r| <= n && r <= s
    ensures |s| <= n ==> r == s
  {
    if |s| <= n then s else s[..n]
  }

  /** Length of the `\w` run starting at `i`. */
  function WordRun(s: string, i: nat): (n: nat)
    ensures i + n <= |s| || n == 0
    ensures forall k :: i <= k < i + n ==> IsWordChar(s[k])
    ensures i + n < |s| ==> !IsWordChar(s[i + n])
    decreases |s| - i
  {
    if i < |s| && IsWordChar(s[i]) then 1 + WordRun(s, i + 1) else 0
  }

  /** Length of the `\s` run starting at `i`. */
  function SpaceRun(s: string, i: nat): (n: nat)
    ensures i + n <= |s| || n == 0
    ensures forall k :: i <= k < i + n ==> IsSpace(s[k])
    ensures i + n < |s| ==> !IsSpace(s[i + n])
    decreases |s| - i
  {
    if i < |s| && IsSpace(s[i]) then 1 + SpaceRun(s, i + 1) else 0
  }

  /** A blank run of length `n` starting at `i` that is not followed by a
    * blank is what `SpaceRun` measures. */
  lemma {:induction false} SpaceRunIs(s: string, i: nat, n: nat)
    requires i + n <= |s|
    requires forall k :: i <= k < i + n ==> IsSpace(s[k])
    requires i + n == |s| || !IsSpace(s[i + n])
    ensures SpaceRun(s, i) == n
    decreases n
  {
    if n > 0 {
      SpaceRunIs(s, i + 1, n - 1);
    }
  }
}
