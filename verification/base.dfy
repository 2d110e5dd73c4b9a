/**
 * Primitives shared by every module of the model: an Option type, fixed-width
 * integer conversions, and the handful of Rust string operations the status
 * bar relies on (`find`, `replace`, `split`, `trim`, `lines`,
 * `split_whitespace`, integer `to_string` and `parse`), each stated over
 * `seq<char>`.
 */
module Base {

  datatype Option<T> = None | Some(value: T) {
    /** `unwrap_or`: the carried value, or `default` when there is none. */
    function GetOr(default: T): (r: T)
      ensures Some? ==> r == value
      ensures None? ==> r == default
    {
      match this
      case Some(v) => v
      case None => default
    }
  }

  /**
   * What running an external command gave: either it could not be started,
   * or it ran and exited with some status and some standard output.
   */
  datatype CommandResult = NotStarted | Ran(success: bool, stdout: string)

  // ---------------------------------------------------------------------
  // Fixed-width integers
  // ---------------------------------------------------------------------

  const TWO_32: int := 0x1_0000_0000
  const I32_MIN: int := -0x8000_0000
  const I32_MAX: int := 0x7fff_ffff

  predicate IsI32(x: int) { I32_MIN <= x <= I32_MAX }

  newtype int64 = x: int | -0x8000_0000_0000_0000 <= x < 0x8000_0000_0000_0000

  type byte = x: int | 0 <= x < 256

  /** Rust's `x as i32` from a wider integer: keep the low 32 bits, two's complement. */
  function WrapI32(x: int): (r: int)
    ensures IsI32(r)
    ensures (x - r) % TWO_32 == 0
    ensures IsI32(x) ==> r == x
  {
    var m := x % TWO_32;
    if m <= I32_MAX then m else m - TWO_32
  }

  /** Rust's `x as u32` from an `i32`. */
  function I32AsU32(x: int): (r: int)
    requires IsI32(x)
    ensures 0 <= r < TWO_32
    ensures (x - r) % TWO_32 == 0
    ensures x >= 0 ==> r == x
  {
    if x >= 0 then x else x + TWO_32
  }

  // ---------------------------------------------------------------------
  // Prefixes, suffixes, occurrences
  // ---------------------------------------------------------------------

  predicate StartsWith(s: string, p: string) {
    |p| <= |s| && s[..|p|] == p
  }

  predicate EndsWith(s: string, p: string) {
    |p| <= |s| && s[|s| - |p|..] == p
  }

  /** `t` occurs in `s` starting at index `i`. */
  predicate OccursAt(s: string, t: string, i: int) {
    0 <= i && i + |t| <= |s| && s[i..i + |t|] == t
  }

  /** `str::contains`. */
  predicate Contains(s: string, t: string) {
    exists i | 0 <= i <= |s| :: OccursAt(s, t, i)
  }

  /** `str::strip_prefix`. */
  function StripPrefix(s: string, p: string): (r: Option<string>)
    ensures r.Some? <==> StartsWith(s, p)
    ensures r.Some? ==> s == p + r.value
  {
    if StartsWith(s, p) then Some(s[|p|..]) else None
  }

  /** `str::find`: the index of the first occurrence of `t` in `s`. */
  function IndexOf(s: string, t: string): (r: Option<nat>)
    ensures r.Some? ==> OccursAt(s, t, r.value)
    ensures r.Some? ==> forall j | 0 <= j < r.value :: !OccursAt(s, t, j)
    ensures r.None? ==> forall j | 0 <= j <= |s| :: !OccursAt(s, t, j)
    decreases |s|
  {
    if |s| < |t| then None
    else if s[..|t|] == t then Some(0)
    else
      match IndexOf(s[1..], t)
      case None =>
        assert forall j | 1 <= j <= |s| :: OccursAt(s, t, j) ==> OccursAt(s[1..], t, j - 1);
        None
      case Some(k) =>
        assert forall j | 1 <= j <= k :: OccursAt(s, t, j) ==> OccursAt(s[1..], t, j - 1);
        assert OccursAt(s, t, k + 1) by {
          SliceOfTail(s, k, |t|);
        }
        Some(k + 1)
  }

  lemma SliceOfTail(s: string, k: nat, n: nat)
    requires k + n + 1 <= |s|
    ensures s[1..][k..k + n] == s[k + 1..k + 1 + n]
  {
  }

  /** One mismatching character rules out an occurrence at `i`. */
  lemma NotOccursAtByChar(s: string, t: string, i: nat, j: nat)
    requires j < |t|
    requires i + |t| <= |s| ==> s[i + j] != t[j]
    ensures !OccursAt(s, t, i)
  {
    if i + |t| <= |s| {
      assert s[i..i + |t|][j] == s[i + j];
    }
  }

  /** One mismatching character rules out a prefix. */
  lemma NotStartsWithByChar(s: string, p: string, j: nat)
    requires j < |p|
    requires |p| <= |s| ==> s[j] != p[j]
    ensures !StartsWith(s, p)
  {
    if |p| <= |s| {
      assert s[..|p|][j] == s[j];
    }
  }

  /** `find` returns the first occurrence, whichever way it is found. */
  lemma IndexOfIsFirst(s: string, t: string, k: nat)
    requires OccursAt(s, t, k)
    requires forall j | 0 <= j < k :: !OccursAt(s, t, j)
    ensures IndexOf(s, t) == Some(k)
  {
    assert OccursAt(s, t, k);
  }

  /** The first occurrence of a character not in `a` after `a`. */
  lemma IndexOfCharAfter(a: string, c: char, b: string)
    requires c !in a
    ensures IndexOf(a + [c] + b, [c]) == Some(|a|)
  {
    var s := a + [c] + b;
    OccursAtChar(s, c, |a|);
    forall j | 0 <= j < |a| ensures !OccursAt(s, [c], j) {
      OccursAtChar(s, c, j);
      assert s[j] == a[j];
    }
    IndexOfIsFirst(s, [c], |a|);
  }

  lemma ContainsIffIndexOf(s: string, t: string)
    ensures Contains(s, t) <==> IndexOf(s, t).Some?
  {
    if IndexOf(s, t).Some? {
      assert OccursAt(s, t, IndexOf(s, t).value);
    }
  }

  /** A single-character pattern occurs exactly where that character sits. */
  lemma OccursAtChar(s: string, c: char, i: int)
    ensures OccursAt(s, [c], i) <==> 0 <= i < |s| && s[i] == c
  {
    if 0 <= i < |s| {
      assert s[i..i + 1] == [s[i]];
    }
  }

  // ---------------------------------------------------------------------
  // replace
  // ---------------------------------------------------------------------

  /**
   * `str::replace(pat, rep)`: scan left to right and substitute every
   * non-overlapping occurrence of `pat` by `rep`.
   */
  function Replace(s: string, pat: string, rep: string): (r: string)
    requires |pat| > 0
    decreases |s|
  {
    if |s| < |pat| then s
    else if s[..|pat|] == pat then rep + Replace(s[|pat|..], pat, rep)
    else [s[0]] + Replace(s[1..], pat, rep)
  }

  /** Text without the pattern comes back unchanged. */
  lemma {:induction false} ReplaceAbsent(s: string, pat: string, rep: string)
    requires |pat| > 0
    requires !Contains(s, pat)
    ensures Replace(s, pat, rep) == s
    decreases |s|
  {
    if |s| >= |pat| {
      assert !OccursAt(s, pat, 0);
      assert !Contains(s[1..], pat) by {
        forall j | 0 <= j <= |s[1..]| && OccursAt(s[1..], pat, j)
          ensures false
        {
          assert s[1..][j..j + |pat|] == s[j + 1..j + 1 + |pat|];
          assert OccursAt(s, pat, j + 1);
        }
      }
      ReplaceAbsent(s[1..], pat, rep);
      assert s == [s[0]] + s[1..];
    }
  }

  /** A pattern that opens with `{` cannot occur in a text without braces. */
  lemma NoBraceNoPattern(s: string, pat: string)
    requires '{' !in s && |pat| > 0 && pat[0] == '{'
    ensures !Contains(s, pat)
  {
    forall i | 0 <= i <= |s| ensures !OccursAt(s, pat, i) {
      if i + |pat| <= |s| { NotOccursAtByChar(s, pat, i, 0); }
    }
  }

  /** Filling a `{placeholder}` leaves a text without braces alone. */
  lemma ReplaceWithoutBrace(s: string, pat: string, rep: string)
    requires '{' !in s && |pat| > 0 && pat[0] == '{'
    ensures Replace(s, pat, rep) == s
  {
    NoBraceNoPattern(s, pat);
    ReplaceAbsent(s, pat, rep);
  }

  /** A text that opens with the pattern and has no other brace: only the opening is replaced. */
  lemma ReplaceLeadingPattern(pat: string, rest: string, rep: string)
    requires |pat| > 0 && pat[0] == '{' && '{' !in rest
    ensures Replace(pat + rest, pat, rep) == rep + rest
  {
    var s := pat + rest;
    assert s[..|pat|] == pat && s[|pat|..] == rest;
    ReplaceWithoutBrace(rest, pat, rep);
  }

  /** A text that is exactly the pattern becomes exactly the replacement. */
  lemma ReplaceWhole(pat: string, rep: string)
    requires |pat| > 0
    ensures Replace(pat, pat, rep) == rep
  {
    assert pat[..|pat|] == pat;
    assert pat[|pat|..] == [];
    assert Replace([], pat, rep) == [];
  }

  /** Deleting a character (`replace(c, "")`) removes every occurrence of it. */
  lemma {:induction false} DeleteCharRemovesAll(s: string, c: char)
    ensures c !in Replace(s, [c], "")
    decreases |s|
  {
    if |s| >= 1 {
      DeleteCharRemovesAll(s[1..], c);
      if s[..1] == [c] {
        assert Replace(s, [c], "") == Replace(s[1..], [c], "");
      } else {
        assert s[0] != c;
        assert Replace(s, [c], "") == [s[0]] + Replace(s[1..], [c], "");
      }
    }
  }

  /** Deleting a character keeps every other character, in order. */
  lemma {:induction false} DeleteCharKeepsOthers(s: string, c: char)
    ensures Replace(s, [c], "") == Filter(s, c)
    decreases |s|
  {
    if |s| >= 1 {
      DeleteCharKeepsOthers(s[1..], c);
      assert s[..1] == [s[0]];
    }
  }

  /** `s` with every `c` dropped: the reference for single-character deletion. */
  function Filter(s: string, c: char): (r: string)
    ensures |r| <= |s|
    ensures c !in r
    ensures forall x | x in r :: x in s
  {
    if |s| == 0 then []
    else if s[0] == c then Filter(s[1..], c)
    else [s[0]] + Filter(s[1..], c)
  }

  // ---------------------------------------------------------------------
  // split, join
  // ---------------------------------------------------------------------

  /** Join `parts` with the separator `c` between consecutive parts. */
  function Join(parts: seq<string>, c: char): string
  {
    if |parts| == 0 then []
    else if |parts| == 1 then parts[0]
    else parts[0] + [c] + Join(parts[1..], c)
  }

  /** `str::split(c)`: never empty, separator-free pieces that join back to `s`. */
  function Split(s: string, c: char): (r: seq<string>)
    ensures |r| >= 1
    ensures forall i | 0 <= i < |r| :: c !in r[i]
    ensures Join(r, c) == s
    ensures |r| == 1 <==> c !in s
    ensures StartsWith(s, r[0])
    ensures |r| >= 2 ==> StartsWith(s, r[0] + [c] + r[1])
    decreases |s|
  {
    match IndexOf(s, [c])
    case None =>
      assert c !in s by {
        forall i | 0 <= i < |s| ensures s[i] != c { OccursAtChar(s, c, i); }
      }
      [s]
    case Some(k) =>
      OccursAtChar(s, c, k);
      assert c !in s[..k] by {
        forall i | 0 <= i < k ensures s[i] != c { OccursAtChar(s, c, i); }
      }
      var rest := Split(s[k + 1..], c);
      SplitStep(s, c, k, rest);
      [s[..k]] + rest
  }

  /** The recursive case of `Split`: the text before the first separator, then the split of the rest. */
  lemma SplitStep(s: string, c: char, k: nat, rest: seq<string>)
    requires k < |s| && s[k] == c && c !in s[..k]
    requires |rest| >= 1 && forall i | 0 <= i < |rest| :: c !in rest[i]
    requires Join(rest, c) == s[k + 1..] && StartsWith(s[k + 1..], rest[0])
    ensures var r := [s[..k]] + rest;
      && |r| >= 2
      && (forall i | 0 <= i < |r| :: c !in r[i])
      && Join(r, c) == s
      && c in s
      && StartsWith(s, r[0])
      && StartsWith(s, r[0] + [c] + r[1])
  {
    var r := [s[..k]] + rest;
    assert r[1..] == rest;
    assert s == s[..k] + [c] + s[k + 1..];
    var q := s[..k] + [c] + rest[0];
    assert s[k + 1..][..|rest[0]|] == rest[0];
    assert s[..|q|] == s[..k] + [c] + s[k + 1..][..|rest[0]|];
  }

  /** Splitting at a first separator peels off the text before it. */
  lemma SplitAtFirst(a: string, c: char, b: string)
    requires c !in a
    ensures Split(a + [c] + b, c) == [a] + Split(b, c)
  {
    var s := a + [c] + b;
    IndexOfCharAfter(a, c, b);
    assert s[..|a|] == a && s[|a| + 1..] == b;
  }

  /** A field in front moves every later field of the split one place on. */
  lemma SplitShiftsFields(a: string, c: char, b: string, k: nat)
    requires c !in a && k < |Split(b, c)|
    ensures k + 1 < |Split(a + [c] + b, c)| && Split(a + [c] + b, c)[k + 1] == Split(b, c)[k]
  {
    SplitAtFirst(a, c, b);
  }

  /** A text without line breaks is a single line. */
  lemma LinesOfSingleLine(s: string)
    requires |s| > 0 && '\n' !in s
    ensures Lines(s) == [s]
  {
    forall j | 0 <= j <= |s| ensures !OccursAt(s, "\n", j) {
      OccursAtChar(s, '\n', j);
    }
  }

  /** A line cut at `\n` loses one `\r` before it; the rest is split on. */
  lemma LinesPeelsFirst(a: string, b: string)
    requires '\n' !in a
    ensures Lines(a + "\n" + b) == [StripCr(a)] + Lines(b)
  {
    var s := a + "\n" + b;
    forall j | 0 <= j < |a| ensures !OccursAt(s, "\n", j) {
      OccursAtChar(s, '\n', j);
    }
    OccursAtChar(s, '\n', |a|);
    assert s[..|a|] == a && s[|a| + 1..] == b;
  }

  /** A text that neither starts nor ends with whitespace is its own trim. */
  lemma TrimUnchanged(s: string)
    requires |s| > 0 && !IsWhitespace(s[0]) && !IsWhitespace(s[|s| - 1])
    ensures Trim(s) == s
  {
  }

  /** Two separator-free words joined by the separator split back into the two words. */
  lemma SplitTwoWords(a: string, c: char, b: string)
    requires c !in a && c !in b
    ensures Split(a + [c] + b, c) == [a, b]
  {
    SplitAtFirst(a, c, b);
    SplitWithoutSeparator(b, c);
  }

  /** Without any separator the split is the whole text alone. */
  lemma SplitWithoutSeparator(s: string, c: char)
    requires c !in s
    ensures Split(s, c) == [s]
  {
    var r := Split(s, c);
    assert |r| == 1;
    assert Join(r, c) == r[0];
  }

  /** The text after the last separator (`split(c).next_back()`). */
  function LastSegment(s: string, c: char): (r: string)
    ensures c !in r
    ensures EndsWith(s, r)
    ensures |r| < |s| ==> s[|s| - |r| - 1] == c
  {
    var parts := Split(s, c);
    LastOfJoin(parts, c, s);
    parts[|parts| - 1]
  }

  /** The last of separator-free parts joined into `s` is a suffix of `s` that follows a separator, or all of `s`. */
  lemma LastOfJoin(parts: seq<string>, c: char, s: string)
    requires |parts| >= 1 && Join(parts, c) == s
    requires forall i | 0 <= i < |parts| :: c !in parts[i]
    ensures var last := parts[|parts| - 1];
      && c !in last
      && EndsWith(s, last)
      && (|last| < |s| ==> s[|s| - |last| - 1] == c)
  {
    LastPartIsSuffix(parts, c);
  }

  /** The text after a final separator is the last segment. */
  lemma LastSegmentAfterSeparator(p: string, c: char, t: string)
    requires c !in t
    ensures LastSegment(p + [c] + t, c) == t
  {
    var s := p + [c] + t;
    var r := LastSegment(s, c);
    assert forall k | |p| < k < |s| :: s[k] == t[k - |p| - 1];
    assert s[|s| - |t| - 1] == c;
    assert |r| >= |t|;
    assert s[|s| - |r|..] == r;
    assert |r| <= |t|;
    assert r == s[|s| - |t|..] == t;
  }

  /** Without any separator the last segment is the whole text. */
  lemma LastSegmentWithoutSeparator(s: string, c: char)
    requires c !in s
    ensures LastSegment(s, c) == s
  {
    var r := LastSegment(s, c);
    assert |r| == |s|;
    assert r == s[|s| - |r|..];
  }

  lemma {:induction false} LastPartIsSuffix(parts: seq<string>, c: char)
    requires |parts| >= 1
    ensures var j := Join(parts, c); var last := parts[|parts| - 1];
      && EndsWith(j, last)
      && (|parts| == 1 ==> j == last)
      && (|parts| > 1 ==> |last| < |j| && j[|j| - |last| - 1] == c)
  {
    if |parts| > 1 {
      LastPartIsSuffix(parts[1..], c);
      var j := Join(parts[1..], c);
      assert Join(parts, c) == (parts[0] + [c]) + j;
    }
  }

  // ---------------------------------------------------------------------
  // Templates: `{name}` placeholders filled by a chain of `replace` calls
  // ---------------------------------------------------------------------

  /** A piece of a format string: literal text, or the placeholder `{name}`. */
  datatype Piece = Lit(text: string) | Hole(name: string)

  /** A placeholder name holds no brace. */
  predicate NameOk(n: string) {
    '{' !in n && '}' !in n
  }

  /** A literal holds no `{`, and a placeholder has a proper name: every `{` opens a placeholder. */
  predicate PieceOk(p: Piece) {
    match p
    case Lit(t) => '{' !in t
    case Hole(n) => NameOk(n)
  }

  predicate TemplateOk(ps: seq<Piece>) {
    forall i | 0 <= i < |ps| :: PieceOk(ps[i])
  }

  function Placeholder(n: string): (r: string)
    ensures |r| == |n| + 2 && r[0] == '{' && r[|r| - 1] == '}'
  {
    "{" + n + "}"
  }

  function PieceText(p: Piece): string {
    match p
    case Lit(t) => t
    case Hole(n) => Placeholder(n)
  }

  /** The format string the pieces spell. */
  function Render(ps: seq<Piece>): string
    decreases |ps|
  {
    if |ps| == 0 then [] else PieceText(ps[0]) + Render(ps[1..])
  }

  /**
   * `format.replace("{n1}", v1).replace("{n2}", v2)…`, one `replace` per
   * fill, in order; a fill's value is itself a piece, so a placeholder can be
   * renamed (`replace("{}", "{id}")`) as well as filled.
   */
  function FillTemplate(format: string, fills: seq<(string, Piece)>): string
    decreases |fills|
  {
    if |fills| == 0 then format
    else FillTemplate(Replace(format, Placeholder(fills[0].0), PieceText(fills[0].1)), fills[1..])
  }

  predicate FillsOk(fills: seq<(string, Piece)>) {
    forall i | 0 <= i < |fills| :: NameOk(fills[i].0) && PieceOk(fills[i].1)
  }

  /** What the fills make of one piece: each fill in turn rewrites the placeholder it names. */
  function FillPiece(p: Piece, fills: seq<(string, Piece)>): Piece
    decreases |fills|
  {
    if |fills| == 0 then p
    else FillPiece(if p == Hole(fills[0].0) then fills[0].1 else p, fills[1..])
  }

  /** Every piece filled on its own. */
  function Instantiate(ps: seq<Piece>, fills: seq<(string, Piece)>): (r: seq<Piece>)
    ensures |r| == |ps|
  {
    seq(|ps|, i requires 0 <= i < |ps| => FillPiece(ps[i], fills))
  }

  /** Literal text goes through every fill untouched. */
  lemma {:induction false} FillLit(t: string, fills: seq<(string, Piece)>)
    ensures FillPiece(Lit(t), fills) == Lit(t)
    decreases |fills|
  {
    if |fills| > 0 {
      FillLit(t, fills[1..]);
    }
  }

  /** A text before which no `{` appears is copied through by a placeholder `replace`. */
  lemma {:induction false} ReplaceSkipsPlain(x: string, y: string, pat: string, rep: string)
    requires '{' !in x && |pat| > 0 && pat[0] == '{'
    ensures Replace(x + y, pat, rep) == x + Replace(y, pat, rep)
    decreases |x|
  {
    if |x| > 0 {
      var s := x + y;
      assert s[0] == x[0];
      if |s| >= |pat| {
        assert s[..|pat|] != pat by { assert s[..|pat|][0] == x[0]; }
        assert Replace(s, pat, rep) == [s[0]] + Replace(s[1..], pat, rep);
        ReplaceSkipsPlain(x[1..], y, pat, rep);
        assert s[1..] == x[1..] + y;
        assert x == [x[0]] + x[1..];
      } else {
        assert Replace(s, pat, rep) == s;
        assert Replace(y, pat, rep) == y;
      }
    } else {
      assert x + y == y;
    }
  }

  /** A placeholder `{n}` is replaced by a `replace("{name}", rep)` exactly when `n` is `name`. */
  lemma ReplaceAtPlaceholder(n: string, y: string, name: string, rep: string)
    requires NameOk(n) && NameOk(name)
    ensures Replace(Placeholder(n) + y, Placeholder(name), rep)
      == (if n == name then rep else Placeholder(n)) + Replace(y, Placeholder(name), rep)
  {
    var s := Placeholder(n) + y;
    var pat := Placeholder(name);
    if n == name {
      assert s[..|pat|] == pat && s[|pat|..] == y;
    } else if |s| < |pat| {
      assert Replace(y, pat, rep) == y;
    } else {
      PlaceholderMismatch(n, y, name);
      var r := Replace(y, pat, rep);
      assert Replace(s, pat, rep) == [s[0]] + Replace(s[1..], pat, rep);
      assert s[1..] == (n + "}") + y;
      ReplaceSkipsPlain(n + "}", y, pat, rep);
      assert [s[0]] + ((n + "}") + r) == Placeholder(n) + r;
    }
  }

  /** Text opening with a different placeholder does not start with `{name}`. */
  lemma PlaceholderMismatch(n: string, y: string, name: string)
    requires NameOk(n) && NameOk(name) && n != name
    ensures !StartsWith(Placeholder(n) + y, Placeholder(name))
  {
    var s := Placeholder(n) + y;
    var pat := Placeholder(name);
    if |n| < |name| {
      assert s[|n| + 1] == '}' && pat[|n| + 1] == name[|n|];
      NotStartsWithByChar(s, pat, |n| + 1);
    } else if |n| > |name| {
      assert s[|name| + 1] == n[|name|] && pat[|name| + 1] == '}';
      NotStartsWithByChar(s, pat, |name| + 1);
    } else {
      var k :| 0 <= k < |n| && n[k] != name[k];
      assert s[k + 1] == n[k] && pat[k + 1] == name[k];
      NotStartsWithByChar(s, pat, k + 1);
    }
  }

  lemma RenderCons(p: Piece, ps: seq<Piece>)
    ensures Render([p] + ps) == PieceText(p) + Render(ps)
  {
    assert ([p] + ps)[1..] == ps;
  }

  /** One placeholder `replace` on a well-formed template rewrites exactly the placeholders it names. */
  lemma {:induction false} ReplaceInTemplate(ps: seq<Piece>, name: string, q: Piece)
    requires TemplateOk(ps) && NameOk(name)
    ensures Replace(Render(ps), Placeholder(name), PieceText(q)) == Render(Instantiate(ps, [(name, q)]))
    decreases |ps|
  {
    var pat := Placeholder(name);
    if |ps| == 0 {
      assert Render(ps) == [];
    } else {
      var p := ps[0];
      var rest := Render(ps[1..]);
      assert TemplateOk(ps[1..]) by {
        forall i | 0 <= i < |ps[1..]| ensures PieceOk(ps[1..][i]) { assert ps[1..][i] == ps[i + 1]; }
      }
      ReplaceInTemplate(ps[1..], name, q);
      assert PieceOk(ps[0]);
      match p {
        case Lit(t) => ReplaceSkipsPlain(t, rest, pat, PieceText(q));
        case Hole(n) => ReplaceAtPlaceholder(n, rest, name, PieceText(q));
      }
      var inst := Instantiate(ps, [(name, q)]);
      var instRest := Instantiate(ps[1..], [(name, q)]);
      assert inst[0] == (if p == Hole(name) then q else p) by {
        assert FillPiece(p, [(name, q)]) == FillPiece(if p == Hole(name) then q else p, []);
      }
      assert inst[1..] == instRest by {
        forall i | 0 <= i < |instRest| ensures inst[1..][i] == instRest[i] { assert ps[1..][i] == ps[i + 1]; }
      }
      assert Render(inst) == PieceText(inst[0]) + Render(inst[1..]);
      assert Render(ps) == PieceText(p) + rest;
      assert PieceText(inst[0]) == (if p == Hole(name) then PieceText(q) else PieceText(p));
    }
  }

  /** Filling with one fill and then the rest is filling with all of them. */
  lemma InstantiateStep(ps: seq<Piece>, fills: seq<(string, Piece)>)
    requires |fills| > 0
    ensures Instantiate(Instantiate(ps, fills[..1]), fills[1..]) == Instantiate(ps, fills)
  {
    forall i | 0 <= i < |ps|
      ensures FillPiece(FillPiece(ps[i], fills[..1]), fills[1..]) == FillPiece(ps[i], fills)
    {
      assert fills[..1][1..] == [];
    }
  }

  lemma InstantiateKeepsOk(ps: seq<Piece>, fills: seq<(string, Piece)>)
    requires TemplateOk(ps) && FillsOk(fills) && |fills| == 1
    ensures TemplateOk(Instantiate(ps, fills))
  {
    var f := fills[0];
    assert PieceOk(f.1);
    forall i | 0 <= i < |ps| ensures PieceOk(Instantiate(ps, fills)[i]) {
      var p' := if ps[i] == Hole(f.0) then f.1 else ps[i];
      assert FillPiece(ps[i], fills) == FillPiece(p', fills[1..]);
      assert fills[1..] == [];
      assert Instantiate(ps, fills)[i] == p';
      assert PieceOk(ps[i]);
    }
  }

  /**
   * The meaning of a chain of placeholder `replace` calls: on a well-formed
   * template and well-formed fills, the literal text is kept and every
   * placeholder becomes what the fills make of it.
   */
  lemma {:induction false} FillTemplateRender(ps: seq<Piece>, fills: seq<(string, Piece)>)
    requires TemplateOk(ps) && FillsOk(fills)
    ensures FillTemplate(Render(ps), fills) == Render(Instantiate(ps, fills))
    decreases |fills|
  {
    if |fills| == 0 {
      assert Instantiate(ps, fills) == ps;
    } else {
      var f := fills[0];
      assert fills[..1] == [f];
      assert FillsOk(fills[..1]);
      ReplaceInTemplate(ps, f.0, f.1);
      var ps1 := Instantiate(ps, [f]);
      InstantiateKeepsOk(ps, [f]);
      assert FillsOk(fills[1..]) by {
        forall i | 0 <= i < |fills[1..]| ensures NameOk(fills[1..][i].0) && PieceOk(fills[1..][i].1) {
          assert fills[1..][i] == fills[i + 1];
        }
      }
      FillTemplateRender(ps1, fills[1..]);
      InstantiateStep(ps, fills);
    }
  }

  /** The value of the first fill naming `n`. */
  function Lookup(fills: seq<(string, Piece)>, n: string): Option<Piece>
    decreases |fills|
  {
    if |fills| == 0 then None
    else if fills[0].0 == n then Some(fills[0].1)
    else Lookup(fills[1..], n)
  }

  /** Every fill puts in literal text (no renaming). */
  predicate LiteralFills(fills: seq<(string, Piece)>) {
    forall i | 0 <= i < |fills| :: fills[i].1.Lit?
  }

  /** Reference reading of literal fills: a placeholder becomes the first fill naming it; anything else stays. */
  function Substitute(p: Piece, fills: seq<(string, Piece)>): Piece {
    if p.Hole? && Lookup(fills, p.name).Some? then Lookup(fills, p.name).value else p
  }

  function SubstituteAll(ps: seq<Piece>, fills: seq<(string, Piece)>): (r: seq<Piece>)
    ensures |r| == |ps|
  {
    seq(|ps|, i requires 0 <= i < |ps| => Substitute(ps[i], fills))
  }

  lemma {:induction false} FillPieceLiteral(p: Piece, fills: seq<(string, Piece)>)
    requires LiteralFills(fills)
    ensures FillPiece(p, fills) == Substitute(p, fills)
    decreases |fills|
  {
    if |fills| > 0 {
      assert LiteralFills(fills[1..]) by {
        forall i | 0 <= i < |fills[1..]| ensures fills[1..][i].1.Lit? { assert fills[1..][i] == fills[i + 1]; }
      }
      if p == Hole(fills[0].0) {
        assert fills[0].1.Lit?;
        FillLit(fills[0].1.text, fills[1..]);
      } else {
        FillPieceLiteral(p, fills[1..]);
      }
    }
  }

  /**
   * With literal fills, a chain of placeholder `replace` calls on a
   * well-formed template puts each fill's text for the placeholders it names,
   * the first fill winning, and keeps all other text.
   */
  lemma FillTemplateSubstitutes(ps: seq<Piece>, fills: seq<(string, Piece)>)
    requires TemplateOk(ps) && FillsOk(fills) && LiteralFills(fills)
    ensures FillTemplate(Render(ps), fills) == Render(SubstituteAll(ps, fills))
  {
    FillTemplateRender(ps, fills);
    forall i | 0 <= i < |ps| ensures Instantiate(ps, fills)[i] == SubstituteAll(ps, fills)[i] {
      FillPieceLiteral(ps[i], fills);
    }
    assert Instantiate(ps, fills) == SubstituteAll(ps, fills);
  }

  /** A format without any `{` comes through every fill unchanged. */
  lemma {:induction false} FillTemplateWithoutBraces(format: string, fills: seq<(string, Piece)>)
    requires '{' !in format
    ensures FillTemplate(format, fills) == format
    decreases |fills|
  {
    if |fills| > 0 {
      ReplaceWithoutBrace(format, Placeholder(fills[0].0), PieceText(fills[0].1));
      FillTemplateWithoutBraces(format, fills[1..]);
    }
  }

  // ---------------------------------------------------------------------
  // Whitespace, trimming, lines
  // ---------------------------------------------------------------------

  /** `char::is_whitespace`: the Unicode White_Space property. */
  predicate IsWhitespace(c: char) {
    || c == ' ' || c == '\t' || c == '\n' || c == '\r' || c == '\U{000B}' || c == '\U{000C}'
    || c == '\U{0085}' || c == '\U{00A0}' || c == '\U{1680}'
    || ('\U{2000}' <= c <= '\U{200A}')
    || c == '\U{2028}' || c == '\U{2029}' || c == '\U{202F}' || c == '\U{205F}' || c == '\U{3000}'
  }

  function TrimStart(s: string): (r: string)
    ensures EndsWith(s, r)
    ensures |r| > 0 ==> !IsWhitespace(r[0])
    ensures forall i | 0 <= i < |s| - |r| :: IsWhitespace(s[i])
  {
    if |s| > 0 && IsWhitespace(s[0]) then TrimStart(s[1..]) else s
  }

  function TrimEnd(s: string): (r: string)
    ensures StartsWith(s, r)
    ensures |r| > 0 ==> !IsWhitespace(r[|r| - 1])
    ensures forall i | |r| <= i < |s| :: IsWhitespace(s[i])
  {
    if |s| > 0 && IsWhitespace(s[|s| - 1]) then TrimEnd(s[..|s| - 1]) else s
  }

  /** `str::trim`. */
  function Trim(s: string): (r: string)
    ensures |r| > 0 ==> !IsWhitespace(r[0]) && !IsWhitespace(r[|r| - 1])
    ensures |r| <= |s|
  {
    TrimEnd(TrimStart(s))
  }

  /** `str::trim_end_matches(c)`. */
  function TrimEndMatches(s: string, c: char): (r: string)
    ensures StartsWith(s, r)
    ensures |r| > 0 ==> r[|r| - 1] != c
    ensures forall i | |r| <= i < |s| :: s[i] == c
  {
    if |s| > 0 && s[|s| - 1] == c then TrimEndMatches(s[..|s| - 1], c) else s
  }

  predicate NoWhitespace(w: string) {
    forall i | 0 <= i < |w| :: !IsWhitespace(w[i])
  }

  /** `str::split_whitespace`: the maximal runs of non-whitespace characters. */
  function SplitWhitespace(s: string): (r: seq<string>)
    ensures AllWords(r)
    decreases |s|
  {
    var t := TrimStart(s);
    if |t| == 0 then []
    else
      var w := WordLen(t);
      assert |t| <= |s| && w > 0;
      var word, rest := t[..w], SplitWhitespace(t[w..]);
      WordsCons(word, rest);
      [word] + rest
  }

  /** The words of `split_whitespace` are non-empty and whitespace-free. */
  predicate AllWords(r: seq<string>) {
    forall i | 0 <= i < |r| :: |r[i]| > 0 && NoWhitespace(r[i])
  }

  /** One more word in front keeps every entry a word. */
  lemma WordsCons(word: string, rest: seq<string>)
    requires |word| > 0 && NoWhitespace(word) && AllWords(rest)
    ensures AllWords([word] + rest)
  {
    var r := [word] + rest;
    forall i | 0 <= i < |r| ensures |r[i]| > 0 && NoWhitespace(r[i]) {
      if i > 0 { assert r[i] == rest[i - 1]; }
    }
  }

  /** Length of the leading run of non-whitespace characters. */
  function WordLen(s: string): (n: nat)
    ensures n <= |s|
    ensures NoWhitespace(s[..n])
    ensures n < |s| ==> IsWhitespace(s[n])
    ensures |s| > 0 && !IsWhitespace(s[0]) ==> n > 0
  {
    if |s| == 0 || IsWhitespace(s[0]) then 0
    else
      var k := WordLen(s[1..]);
      assert s[..k + 1] == [s[0]] + s[1..][..k];
      1 + k
  }

  /** Taking the head off a concatenation with a non-empty front. */
  lemma SplitFirst<T>(a: seq<T>, b: seq<T>)
    requires |a| > 0
    ensures (a + b)[0] == a[0] && (a + b)[1..] == a[1..] + b
  {
  }

  /** The bag of a non-empty sequence is its head plus the bag of its tail. */
  lemma MultisetOfCons<T>(s: seq<T>)
    requires |s| > 0
    ensures multiset(s) == multiset{s[0]} + multiset(s[1..])
  {
    assert s == [s[0]] + s[1..];
  }

  /** Concatenation regrouped. */
  lemma ConcatAssoc<T>(x: seq<T>, y: seq<T>, z: seq<T>)
    ensures x + (y + z) == (x + y) + z
  {
  }

  /** An empty front adds nothing. */
  lemma ConcatEmpty<T>(x: seq<T>, z: seq<T>)
    requires |x| == 0
    ensures x + z == z
  {
  }

  /** Splitting off the last element, also after a prefix. */
  lemma SplitLast<T>(a: seq<T>, b: seq<T>)
    requires |b| > 0
    ensures b == b[..|b| - 1] + [b[|b| - 1]]
    ensures a + b == (a + b[..|b| - 1]) + [b[|b| - 1]]
  {
  }

  /** The first piece of `split(c)` runs up to the first `c`, or is the whole string. */
  lemma SplitHead(s: string, c: char)
    ensures var p := Split(s, c)[0]; |p| == |s| || s[|p|] == c
  {
    var parts := Split(s, c);
    if |parts| >= 2 {
      assert s[..|parts[0]| + 1] == parts[0] + [c] + parts[1][..0];
      assert s[..|parts[0]| + 1][|parts[0]|] == c;
    } else {
      assert Join(parts, c) == parts[0];
    }
  }

  /** The second piece of `split(c)` runs up to the second `c`, or to the end. */
  lemma SplitSecondCut(s: string, c: char)
    requires |Split(s, c)| >= 2
    ensures var r := Split(s, c); var n := |r[0]| + 1 + |r[1]|;
      n <= |s| && (n == |s| || s[n] == c)
  {
    JoinSecondCut(Split(s, c), c);
  }

  lemma JoinSecondCut(r: seq<string>, c: char)
    requires |r| >= 2
    ensures var j := Join(r, c); var n := |r[0]| + 1 + |r[1]|;
      n <= |j| && (n == |j| || j[n] == c)
  {
    var rest := r[1..];
    var tail := Join(rest, c);
    assert Join(r, c) == r[0] + [c] + tail;
    if |rest| >= 2 {
      assert tail == rest[0] + [c] + Join(rest[1..], c);
      assert Join(r, c) == (r[0] + [c] + r[1]) + ([c] + Join(rest[1..], c));
    } else {
      assert tail == r[1];
    }
  }

  /** A prefix of a whitespace-free string is whitespace-free. */
  lemma NoWhitespacePrefix(s: string, p: string)
    requires NoWhitespace(s) && StartsWith(s, p)
    ensures NoWhitespace(p)
  {
    forall i | 0 <= i < |p| ensures !IsWhitespace(p[i]) { assert p[i] == s[i]; }
  }

  /** A word followed by whitespace: the leading run is exactly the word. */
  lemma {:induction false} WordLenOfWord(w: string, rest: string)
    requires NoWhitespace(w) && |rest| > 0 && IsWhitespace(rest[0])
    ensures WordLen(w + rest) == |w|
    decreases |w|
  {
    if |w| == 0 {
      assert w + rest == rest;
    } else {
      assert (w + rest)[1..] == w[1..] + rest;
      WordLenOfWord(w[1..], rest);
    }
  }

  /** `split_whitespace().nth(1)`-style access with a fallback. */
  function Nth(xs: seq<string>, n: nat): Option<string>
  {
    if n < |xs| then Some(xs[n]) else None
  }

  /**
   * `str::lines`: split after every `\n`, drop the terminator and one `\r`
   * before it; a final terminator does not start an extra empty line, and a
   * last line without `\n` is kept whole, even when it ends in a bare `\r`.
   */
  function Lines(s: string): (r: seq<string>)
    ensures forall i | 0 <= i < |r| :: '\n' !in r[i]
    ensures s == [] ==> r == []
    decreases |s|
  {
    if |s| == 0 then []
    else
      match IndexOf(s, "\n")
      case None =>
        assert '\n' !in s by {
          forall i | 0 <= i < |s| ensures s[i] != '\n' { OccursAtChar(s, '\n', i); }
        }
        [s]
      case Some(k) =>
        assert '\n' !in s[..k] by {
          forall i | 0 <= i < k ensures s[i] != '\n' { OccursAtChar(s, '\n', i); }
        }
        [StripCr(s[..k])] + Lines(s[k + 1..])
  }

  function StripCr(s: string): (r: string)
    ensures StartsWith(s, r)
    ensures |s| - 1 <= |r|
  {
    if |s| > 0 && s[|s| - 1] == '\r' then s[..|s| - 1] else s
  }

  /** ASCII-only `to_lowercase`. */
  function LowerAscii(s: string): (r: string)
    ensures |r| == |s|
    ensures forall i | 0 <= i < |r| :: !('A' <= r[i] <= 'Z')
  {
    seq(|s|, i requires 0 <= i < |s| =>
      if 'A' <= s[i] <= 'Z' then (s[i] as int + 32) as char else s[i])
  }

  // ---------------------------------------------------------------------
  // Decimal integers
  // ---------------------------------------------------------------------

  predicate IsDigit(c: char) { '0' <= c <= '9' }

  function DigitValue(c: char): (d: nat)
    requires IsDigit(c)
    ensures d < 10
  {
    c as int - '0' as int
  }

  function DigitChar(d: nat): (c: char)
    requires d < 10
    ensures IsDigit(c) && DigitValue(c) == d
  {
    (d + '0' as int) as char
  }

  /** Decimal digits of `n`, without leading zeros. */
  function NatToString(n: nat): (r: string)
    ensures |r| >= 1
    ensures forall i | 0 <= i < |r| :: IsDigit(r[i])
    decreases n
  {
    if n < 10 then [DigitChar(n)] else NatToString(n / 10) + [DigitChar(n % 10)]
  }

  /** Rust's `Display` for an integer: a `-` sign for negatives, then the digits. */
  function IntToString(x: int): (r: string)
    ensures |r| >= 1
    ensures x >= 0 ==> forall i | 0 <= i < |r| :: IsDigit(r[i])
    ensures x < 0 ==> r[0] == '-'
    ensures forall i | 0 <= i < |r| :: IsDigit(r[i]) || r[i] == '-'
    ensures '{' !in r
  {
    if x >= 0 then NatToString(x) else "-" + NatToString(-x)
  }

  /** Value of a non-empty run of digits, most significant first. */
  function DigitsValue(s: string): (n: nat)
    requires forall i | 0 <= i < |s| :: IsDigit(s[i])
    decreases |s|
  {
    if |s| == 0 then 0 else 10 * DigitsValue(s[..|s| - 1]) + DigitValue(s[|s| - 1])
  }

  /** The first element `f` reads something from, and what it reads; nothing iff `f` reads nothing anywhere. */
  function FirstOf<A, T>(xs: seq<A>, f: A -> Option<T>): (r: Option<T>)
    ensures r.None? <==> forall k | 0 <= k < |xs| :: f(xs[k]).None?
    ensures r.Some? ==> exists k | 0 <= k < |xs| :: r == f(xs[k])
    ensures forall k | 0 <= k < |xs| && f(xs[k]).Some? && (forall j | 0 <= j < k :: f(xs[j]).None?) :: r == f(xs[k])
    decreases |xs|
  {
    if |xs| == 0 then None
    else if f(xs[0]).Some? then f(xs[0])
    else
      var r := FirstOf(xs[1..], f);
      assert forall k | 1 <= k < |xs| :: xs[1..][k - 1] == xs[k];
      r
  }

  predicate AllDigits(s: string) {
    forall i | 0 <= i < |s| :: IsDigit(s[i])
  }

  /**
   * `str::parse` for a signed integer without the width check: an optional
   * `+` or `-`, then one or more ASCII digits, and nothing else.
   */
  function ParseInt(s: string): (r: Option<int>)
    ensures r.Some? ==> |s| >= 1
    ensures r.Some? && AllDigits(s) ==> r.value >= 0
  {
    if |s| >= 1 && (s[0] == '+' || s[0] == '-') then
      var body := s[1..];
      if |body| >= 1 && AllDigits(body) then
        Some(if s[0] == '-' then -(DigitsValue(body) as int) else DigitsValue(body) as int)
      else None
    else if |s| >= 1 && AllDigits(s) then Some(DigitsValue(s))
    else None
  }

  /** `str::parse::<i32>`: `ParseInt`, rejecting values outside the 32-bit range. */
  function ParseI32(s: string): (r: Option<int>)
    ensures r.Some? ==> IsI32(r.value)
    ensures r.Some? <==> ParseInt(s).Some? && IsI32(ParseInt(s).value)
  {
    match ParseInt(s)
    case Some(v) => if IsI32(v) then Some(v) else None
    case None => None
  }

  lemma {:induction false} DigitsOfNat(n: nat)
    ensures DigitsValue(NatToString(n)) == n
    decreases n
  {
    if n >= 10 {
      DigitsOfNat(n / 10);
      var s := NatToString(n);
      assert s[..|s| - 1] == NatToString(n / 10);
    }
  }

  /** Printing an integer and parsing it back gives the integer. */
  lemma IntToStringRoundTrip(x: int)
    ensures ParseInt(IntToString(x)) == Some(x)
    ensures IsI32(x) ==> ParseI32(IntToString(x)) == Some(x)
  {
    if x >= 0 {
      DigitsOfNat(x);
      assert NatToString(x)[0] != '+' && NatToString(x)[0] != '-';
    } else {
      DigitsOfNat(-x);
      assert IntToString(x)[1..] == NatToString(-x);
    }
  }
}
