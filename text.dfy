/**
 * The JavaScript string operations the route planner relies on:
 * `trim`, ASCII `toLowerCase`, `includes`, `split` on one character,
 * `Array.prototype.join`, the `/\s+/g` and `/'/g` replacements used to build
 * table keys, and the decimal rendering of a number inside a template string.
 */
module Text {

  /** The code points JavaScript's `\s` and `String.prototype.trim` treat as white space
      (the WhiteSpace and LineTerminator productions of ECMAScript). */
  predicate IsSpace(c: char) {
    c == '\t' || c == '\n' || c == '\U{B}' || c == '\U{C}' || c == '\r' || c == ' '
    || c == '\U{A0}' || c == '\U{1680}' || ('\U{2000}' <= c <= '\U{200A}')
    || c == '\U{2028}' || c == '\U{2029}' || c == '\U{202F}' || c == '\U{205F}'
    || c == '\U{3000}' || c == '\U{FEFF}'
  }

  predicate NoSpace(s: string) {
    forall i | 0 <= i < |s| :: !IsSpace(s[i])
  }

  predicate AllSpace(s: string) {
    forall i | 0 <= i < |s| :: IsSpace(s[i])
  }

  // ---------------------------------------------------------------- lower case

  /** `toLowerCase` restricted to ASCII: every other code point is left unchanged. */
  function LowerChar(c: char): char {
    if 'A' <= c <= 'Z' then (c as int - 'A' as int + 'a' as int) as char else c
  }

  function Lower(s: string): string {
    seq(|s|, i requires 0 <= i < |s| => LowerChar(s[i]))
  }

  predicate IsLower(s: string) {
    forall i | 0 <= i < |s| :: !('A' <= s[i] <= 'Z')
  }

  /** Lower-casing leaves no upper-case letter, changes nothing else, and is idempotent. */
  lemma LowerIsLower(s: string)
    ensures IsLower(Lower(s)) && |Lower(s)| == |s|
    ensures Lower(Lower(s)) == Lower(s)
    ensures IsLower(s) ==> Lower(s) == s
  {
  }

  lemma LowerAppend(p: string, q: string)
    ensures Lower(p + q) == Lower(p) + Lower(q)
  {
  }

  // ---------------------------------------------------------------- trim

  function TrimStart(s: string): (r: string)
    ensures |r| <= |s| && r == s[|s| - |r|..]
    ensures AllSpace(s[..|s| - |r|])
    ensures r == [] || !IsSpace(r[0])
    decreases |s|
  {
    if s != [] && IsSpace(s[0]) then TrimStart(s[1..]) else s
  }

  function TrimEnd(s: string): (r: string)
    ensures |r| <= |s| && r == s[..|r|]
    ensures AllSpace(s[|r|..])
    ensures r == [] || !IsSpace(r[|r| - 1])
    decreases |s|
  {
    if s != [] && IsSpace(s[|s| - 1]) then
      var r := TrimEnd(s[..|s| - 1]);
      assert s[|r|..] == s[..|s| - 1][|r|..] + [s[|s| - 1]];
      r
    else s
  }

  /** `String.prototype.trim`: `s` with the white space at both ends cut off. */
  function Trim(s: string): (r: string)
    ensures |r| <= |s|
    ensures r == [] || (!IsSpace(r[0]) && !IsSpace(r[|r| - 1]))
  {
    TrimEnd(TrimStart(s))
  }

  /** What trimming cuts off is white space, and what it keeps is a slice of the input. */
  lemma TrimIsSlice(s: string)
    ensures exists lo, hi | 0 <= lo <= hi <= |s| :: Trim(s) == s[lo..hi] && AllSpace(s[..lo]) && AllSpace(s[hi..])
  {
    var t := TrimStart(s);
    var r := TrimEnd(t);
    var lo := |s| - |t|;
    assert r == s[lo..lo + |r|];
    assert s[lo + |r|..] == t[|r|..];
    assert AllSpace(s[..lo]) && AllSpace(s[lo + |r|..]);
  }

  /** A string trims to nothing exactly when it consists of white space only. */
  lemma TrimEmptyIffBlank(s: string)
    ensures Trim(s) == [] <==> AllSpace(s)
  {
    var t := TrimStart(s);
    if !AllSpace(s) {
      var k :| 0 <= k < |s| && !IsSpace(s[k]);
      assert t != [] && !IsSpace(t[0]);
      assert TrimEnd(t) != [];
    }
  }

  // ---------------------------------------------------------------- substring search

  predicate OccursAt(text: string, pat: string, i: int) {
    0 <= i && i + |pat| <= |text| && text[i..i + |pat|] == pat
  }

  /** `text.includes(pat)`: some slice of `text` equals `pat` (the empty pattern is always found). */
  function Includes(text: string, pat: string): (b: bool)
    ensures b <==> exists i :: OccursAt(text, pat, i)
    decreases |text|
  {
    if |pat| > |text| then false
    else if text[..|pat|] == pat then
      assert OccursAt(text, pat, 0);
      true
    else
      var b := Includes(text[1..], pat);
      assert b ==> exists i :: OccursAt(text, pat, i) by {
        if b {
          var i :| OccursAt(text[1..], pat, i);
          assert text[1..][i..i + |pat|] == text[i + 1..i + 1 + |pat|];
          assert OccursAt(text, pat, i + 1);
        }
      }
      assert (exists i :: OccursAt(text, pat, i)) ==> b by {
        if i :| OccursAt(text, pat, i) {
          assert i != 0;
          assert text[1..][i - 1..i - 1 + |pat|] == text[i..i + |pat|];
          assert OccursAt(text[1..], pat, i - 1);
        }
      }
      b
  }

  /** A pattern found in a slice of a text is found in the text. */
  lemma IncludesInSlice(text: string, pat: string, lo: nat, hi: nat)
    requires lo <= hi <= |text|
    requires Includes(text[lo..hi], pat)
    ensures Includes(text, pat)
  {
    var i :| OccursAt(text[lo..hi], pat, i);
    assert text[lo + i..lo + i + |pat|] == pat by {
      forall j | 0 <= j < |pat| ensures text[lo + i + j] == pat[j] {
        assert text[lo..hi][i..i + |pat|][j] == pat[j];
      }
    }
    assert OccursAt(text, pat, lo + i);
  }

  // ---------------------------------------------------------------- split and join

  function IndexOf(s: string, c: char): (k: nat)
    requires c in s
    ensures k < |s| && s[k] == c && c !in s[..k]
  {
    if s[0] == c then 0 else 1 + IndexOf(s[1..], c)
  }

  /** `Array.prototype.join(sep)`. */
  function Join(parts: seq<string>, sep: string): string
    decreases |parts|
  {
    if parts == [] then []
    else if |parts| == 1 then parts[0]
    else parts[0] + sep + Join(parts[1..], sep)
  }

  /** `s.split(String.fromCharCode(sep))`: the pieces between the separators, empty ones included. */
  function Split(s: string, sep: char): (parts: seq<string>)
    ensures |parts| >= 1
    ensures Join(parts, [sep]) == s
    ensures forall i | 0 <= i < |parts| :: sep !in parts[i]
    decreases |s|
  {
    if sep !in s then [s]
    else
      var k := IndexOf(s, sep);
      var rest := Split(s[k + 1..], sep);
      assert s == s[..k] + [sep] + s[k + 1..];
      [s[..k]] + rest
  }

  /** Split is the only way to cut a string into separator-free pieces that re-join to it. */
  lemma {:induction false} SplitUnique(s: string, sep: char, parts: seq<string>)
    requires |parts| >= 1 && Join(parts, [sep]) == s
    requires forall i | 0 <= i < |parts| :: sep !in parts[i]
    ensures parts == Split(s, sep)
    decreases |parts|
  {
    if |parts| == 1 {
      assert sep !in s;
    } else {
      var tail := Join(parts[1..], [sep]);
      assert s == parts[0] + [sep] + tail;
      assert s[|parts[0]|] == sep;
      var k := IndexOf(s, sep);
      assert s[..|parts[0]|] == parts[0];
      assert k == |parts[0]|;
      assert s[k + 1..] == tail;
      SplitUnique(tail, sep, parts[1..]);
      assert parts == [parts[0]] + parts[1..];
    }
  }

  /** Every piece of a split is a slice of the input, so pieces of a lower-case string are lower case. */
  lemma {:induction false} SplitKeepsLower(s: string, sep: char)
    requires IsLower(s)
    ensures forall i | 0 <= i < |Split(s, sep)| :: IsLower(Split(s, sep)[i])
    decreases |s|
  {
    if sep in s {
      var k := IndexOf(s, sep);
      var rest := s[k + 1..];
      assert IsLower(rest) by {
        forall i | 0 <= i < |rest| ensures !('A' <= rest[i] <= 'Z') {
          assert rest[i] == s[k + 1 + i];
        }
      }
      SplitKeepsLower(rest, sep);
      assert Split(s, sep) == [s[..k]] + Split(rest, sep);
    }
  }

  /** A join with a non-empty separator is empty exactly for no parts or one empty part. */
  lemma JoinEmptyIff(parts: seq<string>, sep: string)
    requires sep != []
    ensures Join(parts, sep) == [] <==> parts == [] || parts == [[]]
  {
    if |parts| >= 2 {
      assert |Join(parts, sep)| >= |sep|;
    }
  }

  /** Appending a part adds one separator and the part at the end. */
  lemma {:induction false} JoinSnoc(parts: seq<string>, x: string, sep: string)
    requires parts != []
    ensures Join(parts + [x], sep) == Join(parts, sep) + sep + x
    decreases |parts|
  {
    if |parts| == 1 {
      assert (parts + [x])[1..] == [x];
    } else {
      assert (parts + [x])[1..] == parts[1..] + [x];
      JoinSnoc(parts[1..], x, sep);
    }
  }

  // ---------------------------------------------------------------- replacements

  /** `s.replace(/\s+/g, '-')`, scanning left to right; `afterSpace` says whether the
      previous character was white space (and so already produced its `-`). */
  function CollapseFrom(s: string, afterSpace: bool): string
    decreases |s|
  {
    if s == [] then [] else CollapseChar(s[0], afterSpace) + CollapseFrom(s[1..], IsSpace(s[0]))
  }

  /** What one character turns into: a space opens a run that becomes one `-`. */
  function CollapseChar(c: char, afterSpace: bool): string {
    if !IsSpace(c) then [c] else if afterSpace then [] else "-"
  }

  function CollapseSpaces(s: string): string {
    CollapseFrom(s, false)
  }

  /** The replacement leaves no white space behind. */
  lemma {:induction false} CollapseHasNoSpace(s: string, afterSpace: bool)
    ensures NoSpace(CollapseFrom(s, afterSpace))
    decreases |s|
  {
    if s != [] {
      CollapseHasNoSpace(s[1..], IsSpace(s[0]));
    }
  }

  /** Text without white space is left alone. */
  lemma {:induction false} CollapseNoSpace(s: string, afterSpace: bool)
    requires NoSpace(s)
    ensures CollapseFrom(s, afterSpace) == s
    decreases |s|
  {
    if s != [] {
      CollapseNoSpace(s[1..], false);
    }
  }

  /** One space between a space-free head and a tail that starts with a non-space becomes one `-`. */
  lemma {:induction false} CollapseSpaced(p: string, q: string)
    requires NoSpace(p)
    requires q == [] || !IsSpace(q[0])
    ensures CollapseSpaces(p + " " + q) == p + "-" + CollapseSpaces(q)
    decreases |p|
  {
    if p == [] {
      assert (" " + q)[1..] == q;
      assert CollapseFrom(q, true) == CollapseFrom(q, false);
    } else {
      assert (p + " " + q)[1..] == p[1..] + " " + q;
      CollapseSpaced(p[1..], q);
    }
  }

  /** The replacement introduces no upper-case letter. */
  lemma {:induction false} CollapseKeepsLower(s: string, afterSpace: bool)
    requires IsLower(s)
    ensures IsLower(CollapseFrom(s, afterSpace))
    decreases |s|
  {
    if s != [] {
      CollapseKeepsLower(s[1..], IsSpace(s[0]));
    }
  }

  /** Whether the scan is inside a run of white space once `p` has been read. */
  function EndsInSpace(p: string, afterSpace: bool): bool {
    if p == [] then afterSpace else IsSpace(p[|p| - 1])
  }

  /** The replacement works piece by piece, carrying only whether the last character was a space. */
  lemma {:induction false} CollapseAppend(p: string, q: string, afterSpace: bool)
    ensures CollapseFrom(p + q, afterSpace) == CollapseFrom(p, afterSpace) + CollapseFrom(q, EndsInSpace(p, afterSpace))
    decreases |p|
  {
    if p == [] {
      assert p + q == q;
    } else {
      var c, rest := p[0], p[1..];
      assert p == [c] + rest && p + q == [c] + (rest + q);
      CollapseCons(c, rest + q, afterSpace);
      CollapseCons(c, rest, afterSpace);
      CollapseAppend(rest, q, IsSpace(c));
      assert EndsInSpace(rest, IsSpace(c)) == EndsInSpace(p, afterSpace);
      SeqAssoc(CollapseChar(c, afterSpace), CollapseFrom(rest, IsSpace(c)), CollapseFrom(q, EndsInSpace(p, afterSpace)));
    }
  }

  /** One step of the scan. */
  lemma CollapseCons(c: char, s: string, afterSpace: bool)
    ensures CollapseFrom([c] + s, afterSpace) == CollapseChar(c, afterSpace) + CollapseFrom(s, IsSpace(c))
  {
    assert ([c] + s)[1..] == s;
  }

  /** Concatenation regroups freely; stated once so the scan's proof need not search for it. */
  lemma SeqAssoc(a: string, b: string, c: string)
    ensures a + (b + c) == (a + b) + c
  {
  }

  /** `s.replace(/'/g, '')` for the character `c`. */
  function RemoveChar(s: string, c: char): (r: string)
    ensures c !in r && |r| <= |s|
    ensures c !in s ==> r == s
    decreases |s|
  {
    if s == [] then [] else (if s[0] == c then [] else [s[0]]) + RemoveChar(s[1..], c)
  }

  /** Deleting characters keeps a string free of white space and of upper-case letters. */
  lemma {:induction false} RemoveCharKeeps(s: string, c: char)
    ensures NoSpace(s) ==> NoSpace(RemoveChar(s, c))
    ensures IsLower(s) ==> IsLower(RemoveChar(s, c))
    decreases |s|
  {
    if s != [] {
      RemoveCharKeeps(s[1..], c);
    }
  }

  lemma {:induction false} RemoveCharAppend(p: string, q: string, c: char)
    ensures RemoveChar(p + q, c) == RemoveChar(p, c) + RemoveChar(q, c)
    decreases |p|
  {
    if p != [] {
      assert (p + q)[1..] == p[1..] + q;
      RemoveCharAppend(p[1..], q, c);
    } else {
      assert p + q == q;
    }
  }

  // ---------------------------------------------------------------- numbers

  function DigitChar(d: nat): (c: char)
    requires d < 10
    ensures '0' <= c <= '9' && c as int - '0' as int == d
  {
    (d + '0' as int) as char
  }

  predicate IsDigits(s: string) {
    forall i | 0 <= i < |s| :: '0' <= s[i] <= '9'
  }

  /** Decimal rendering of a number, as a template string writes it. */
  function NatToString(n: nat): (s: string)
    ensures s != [] && IsDigits(s)
    ensures s[0] == '0' ==> n == 0
    decreases n
  {
    if n < 10 then [DigitChar(n)] else NatToString(n / 10) + [DigitChar(n % 10)]
  }

  /** The value of a string of decimal digits. */
  function DecimalValue(s: string): nat
    requires IsDigits(s)
    decreases |s|
  {
    if s == [] then 0 else 10 * DecimalValue(s[..|s| - 1]) + (s[|s| - 1] as int - '0' as int)
  }

  /** Reading back the decimal rendering gives the number. */
  lemma {:induction false} DecimalRoundTrip(n: nat)
    ensures DecimalValue(NatToString(n)) == n
    decreases n
  {
    if n >= 10 {
      var s := NatToString(n);
      assert s[..|s| - 1] == NatToString(n / 10);
      DecimalRoundTrip(n / 10);
    }
  }
}
