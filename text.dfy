/**
 * The JavaScript string primitives the client relies on, written out with
 * their ECMAScript semantics: `trim`, `indexOf`, `startsWith`, `slice`,
 * `split`, `join`, `replaceAll` (with its `$` replacement patterns), the
 * `split(/\r?\n/)` line splitter, the UTF-16 `length`, and the decimal
 * rendering of integers.
 */
module Text {

  /** The code points String.prototype.trim removes: WhiteSpace and LineTerminator. */
  predicate IsSpace(c: char) {
    || c == '\t' || c == '\n' || c == '\U{000B}' || c == '\U{000C}' || c == '\r'
    || c == ' ' || c == '\U{00A0}' || c == '\U{1680}'
    || ('\U{2000}' <= c <= '\U{200A}')
    || c == '\U{2028}' || c == '\U{2029}' || c == '\U{202F}' || c == '\U{205F}'
    || c == '\U{3000}' || c == '\U{FEFF}'
  }

  /** No leading and no trailing white space. */
  predicate IsTrimmed(s: string) {
    s == [] || (!IsSpace(s[0]) && !IsSpace(s[|s| - 1]))
  }

  /** Every character is white space (the empty string included). */
  predicate IsBlank(s: string) {
    forall i :: 0 <= i < |s| ==> IsSpace(s[i])
  }

  /** trimStart: drop the leading white space. */
  function TrimStart(s: string): (r: string)
    ensures |r| <= |s|
    decreases |s|
  {
    if s != [] && IsSpace(s[0]) then TrimStart(s[1..]) else s
  }

  /** What trimStart leaves is a suffix that starts with no white space, and all it dropped was white space. */
  lemma {:induction false} TrimStartFacts(s: string)
    ensures var r := TrimStart(s);
      && r == s[|s| - |r|..]
      && (r == [] || !IsSpace(r[0]))
      && forall i :: 0 <= i < |s| - |r| ==> IsSpace(s[i])
    decreases |s|
  {
    if s != [] && IsSpace(s[0]) {
      TrimStartFacts(s[1..]);
    }
  }

  /** trimEnd: drop the trailing white space. */
  function TrimEnd(s: string): (r: string)
    ensures |r| <= |s|
    decreases |s|
  {
    if s != [] && IsSpace(s[|s| - 1]) then TrimEnd(s[..|s| - 1]) else s
  }

  /** What trimEnd leaves is a prefix that ends with no white space, and all it dropped was white space. */
  lemma {:induction false} TrimEndFacts(s: string)
    ensures var r := TrimEnd(s);
      && r == s[..|r|]
      && (r == [] || !IsSpace(r[|r| - 1]))
      && forall i :: |r| <= i < |s| ==> IsSpace(s[i])
    decreases |s|
  {
    if s != [] && IsSpace(s[|s| - 1]) {
      TrimEndFacts(s[..|s| - 1]);
    }
  }

  /** String.prototype.trim. */
  function Trim(s: string): string {
    TrimEnd(TrimStart(s))
  }

  /** trim leaves no white space at either end. */
  lemma TrimIsTrimmed(s: string)
    ensures IsTrimmed(Trim(s))
  {
    var t := TrimStart(s);
    TrimStartFacts(s);
    TrimEndFacts(t);
    var r := TrimEnd(t);
    assert r != [] ==> r[0] == t[0];
  }

  /** trim gives an infix: what follows the dropped leading white space. */
  lemma TrimIsInfix(s: string)
    ensures var r := Trim(s); var a := |s| - |TrimStart(s)|;
      a + |r| <= |s| && r == s[a..a + |r|]
  {
    var t := TrimStart(s);
    TrimStartFacts(s);
    TrimEndFacts(t);
  }

  /** trim gives the empty string exactly for a blank string. */
  lemma TrimEmptyIffBlank(s: string)
    ensures Trim(s) == [] <==> IsBlank(s)
  {
    var t := TrimStart(s);
    TrimStartFacts(s);
    TrimEndFacts(t);
    if Trim(s) == [] {
      assert t == [];
    } else {
      assert t[0] == s[|s| - |t|];
    }
  }

  /** A trimmed string is its own trim. */
  lemma TrimOfTrimmed(s: string)
    requires IsTrimmed(s)
    ensures Trim(s) == s
  {
    assert TrimStart(s) == s;
    assert TrimEnd(s) == s;
  }

  /** trimEnd stops at the last character that is not white space. */
  lemma {:induction false} TrimEndAfter(a: string, b: string)
    requires a != [] && !IsSpace(a[|a| - 1])
    ensures TrimEnd(a + b) == a + TrimEnd(b)
    decreases |b|
  {
    if b == [] {
      assert a + b == a;
    } else if IsSpace(b[|b| - 1]) {
      assert (a + b)[..|a + b| - 1] == a + b[..|b| - 1];
      TrimEndAfter(a, b[..|b| - 1]);
    }
  }

  /** Trimming text that opens with a non-empty trimmed `a` keeps `a` whole and trims only the end of what follows. */
  lemma TrimAfterTrimmed(a: string, b: string)
    requires a != [] && IsTrimmed(a)
    ensures Trim(a + b) == a + TrimEnd(b)
  {
    assert (a + b)[0] == a[0];
    assert TrimStart(a + b) == a + b;
    TrimEndAfter(a, b);
  }

  /** `p` occurs in `s` at index `i`. */
  predicate OccursAt(s: string, p: string, i: int) {
    0 <= i && i + |p| <= |s| && s[i..i + |p|] == p
  }

  /** String.prototype.indexOf(p, k): the first occurrence at or after k, or -1. */
  function IndexOfFrom(s: string, p: string, k: nat): (r: int)
    requires k <= |s|
    ensures r == -1 || (k <= r && r + |p| <= |s|)
    decreases |s| - k
  {
    if k + |p| > |s| then -1
    else if s[k..k + |p|] == p then k
    else
      assert |p| > 0;
      IndexOfFrom(s, p, k + 1)
  }

  /** What indexOf finds is an occurrence. */
  lemma {:induction false} IndexOfFromFound(s: string, p: string, k: nat)
    requires k <= |s|
    ensures IndexOfFrom(s, p, k) == -1 || OccursAt(s, p, IndexOfFrom(s, p, k))
    decreases |s| - k
  {
    if k + |p| <= |s| && s[k..k + |p|] != p {
      IndexOfFromFound(s, p, k + 1);
    }
  }

  /** What indexOf finds in the whole string is an occurrence. */
  lemma IndexOfFound(s: string, p: string)
    ensures IndexOf(s, p) == -1 || OccursAt(s, p, IndexOf(s, p))
  {
    IndexOfFromFound(s, p, 0);
  }

  /** indexOf finds the first occurrence: none lies between `k` and the result (or the end). */
  lemma {:induction false} IndexOfFromFirst(s: string, p: string, k: nat, j: int)
    requires k <= |s| && k <= j
    requires IndexOfFrom(s, p, k) == -1 || j < IndexOfFrom(s, p, k)
    ensures !OccursAt(s, p, j)
    decreases |s| - k
  {
    if k + |p| <= |s| && s[k..k + |p|] != p && j > k {
      IndexOfFromFirst(s, p, k + 1, j);
    }
  }

  function IndexOf(s: string, p: string): int {
    IndexOfFrom(s, p, 0)
  }

  /** String.prototype.includes. */
  predicate Contains(s: string, p: string) {
    IndexOf(s, p) != -1
  }

  /** String.prototype.startsWith. */
  predicate StartsWith(s: string, p: string) {
    |p| <= |s| && s[..|p|] == p
  }

  /** A first occurrence in `s` is still the first one once text is appended. */
  lemma IndexOfAppend(s: string, t: string, p: string)
    requires IndexOf(s, p) != -1
    ensures IndexOf(s + t, p) == IndexOf(s, p)
  {
    var i := IndexOf(s, p);
    IndexOfFound(s, p);
    IndexOfFound(s + t, p);
    assert (s + t)[i..i + |p|] == s[i..i + |p|];
    assert OccursAt(s + t, p, i);
    var r := IndexOf(s + t, p);
    if r == -1 || r > i {
      IndexOfFromFirst(s + t, p, 0, i);
    } else if r < i {
      assert (s + t)[r..r + |p|] == s[r..r + |p|];
      IndexOfFromFirst(s, p, 0, r);
    }
  }

  /** String.prototype.slice(a, b) for non-negative bounds: clamped, empty when b <= a. */
  function Slice(s: string, a: nat, b: nat): (r: string)
    ensures |r| <= |s|
  {
    var a' := if a < |s| then a else |s|;
    var b' := if b < |s| then b else |s|;
    if a' < b' then s[a'..b'] else ""
  }

  /** `slice(a)`: everything from `a` on. */
  lemma SliceToEnd(s: string, a: nat)
    requires a <= |s|
    ensures Slice(s, a, |s|) == s[a..]
  {
  }

  /** String.prototype.split with a non-empty string separator, from index k. */
  function SplitFrom(s: string, sep: string, k: nat): (parts: seq<string>)
    requires |sep| > 0 && k <= |s|
    ensures |parts| >= 1
    decreases |s| - k
  {
    var i := IndexOfFrom(s, sep, k);
    if i == -1 then [s[k..]] else [s[k..i]] + SplitFrom(s, sep, i + |sep|)
  }

  function Split(s: string, sep: string): (parts: seq<string>)
    requires |sep| > 0
    ensures |parts| >= 1
  {
    SplitFrom(s, sep, 0)
  }

  /** Array.prototype.join over strings. */
  function Join(parts: seq<string>, sep: string): string {
    if |parts| == 0 then ""
    else if |parts| == 1 then parts[0]
    else parts[0] + sep + Join(parts[1..], sep)
  }

  lemma JoinCons(a: string, rest: seq<string>, sep: string)
    requires |rest| >= 1
    ensures Join([a] + rest, sep) == a + sep + Join(rest, sep)
  {
    assert ([a] + rest)[1..] == rest;
  }

  /**
   * The first two parts of a split at a separator that occurs: the text
   * before its first occurrence, and the text between the first and the
   * second occurrence (or the end).
   */
  lemma SplitFirstTwo(s: string, sep: string)
    requires |sep| > 0 && Contains(s, sep)
    ensures var i := IndexOf(s, sep);
      var j := IndexOfFrom(s, sep, i + |sep|);
      && |Split(s, sep)| >= 2 && Split(s, sep)[0] == s[..i]
      && Split(s, sep)[1] == (if j == -1 then s[i + |sep|..] else s[i + |sep|..j])
  {
    var i := IndexOf(s, sep);
    var rest := SplitFrom(s, sep, i + |sep|);
    var j := IndexOfFrom(s, sep, i + |sep|);
    assert rest[0] == (if j == -1 then s[i + |sep|..] else s[i + |sep|..j]);
  }

  /** Joining the parts of a split with `rep`: the first part, `rep`, then the rest joined. */
  lemma JoinSplitStep(s: string, sep: string, rep: string, k: nat)
    requires |sep| > 0 && k <= |s| && IndexOfFrom(s, sep, k) != -1
    ensures var i := IndexOfFrom(s, sep, k);
      Join(SplitFrom(s, sep, k), rep) == s[k..i] + rep + Join(SplitFrom(s, sep, i + |sep|), rep)
  {
    var i := IndexOfFrom(s, sep, k);
    JoinCons(s[k..i], SplitFrom(s, sep, i + |sep|), rep);
  }

  /** The text before the occurrence indexOf finds, the occurrence and the text after it make up the suffix they span. */
  lemma Reassemble(s: string, sep: string, k: nat, tail: string)
    requires k <= |s| && IndexOfFrom(s, sep, k) != -1
    requires tail == s[IndexOfFrom(s, sep, k) + |sep|..]
    ensures s[k..IndexOfFrom(s, sep, k)] + sep + tail == s[k..]
  {
    var i := IndexOfFrom(s, sep, k);
    IndexOfFromFound(s, sep, k);
    assert s[i..i + |sep|] == sep;
    SliceThree(s, k, i, i + |sep|);
  }

  /** A suffix is cut into three consecutive slices. */
  lemma SliceThree(s: string, k: nat, i: nat, j: nat)
    requires k <= i <= j <= |s|
    ensures s[k..] == s[k..i] + s[i..j] + s[j..]
  {
  }

  /** Joining with the separator undoes splitting on it. */
  lemma {:induction false} JoinSplitFrom(s: string, sep: string, k: nat)
    requires |sep| > 0 && k <= |s|
    ensures Join(SplitFrom(s, sep, k), sep) == s[k..]
    decreases |s| - k
  {
    var i := IndexOfFrom(s, sep, k);
    if i != -1 {
      JoinSplitFrom(s, sep, i + |sep|);
      JoinSplitStep(s, sep, sep, k);
      Reassemble(s, sep, k, Join(SplitFrom(s, sep, i + |sep|), sep));
    }
  }

  /** The text of a sequence of chunks read one after another. */
  function Concat(chunks: seq<string>): string {
    if chunks == [] then "" else Concat(chunks[..|chunks| - 1]) + chunks[|chunks| - 1]
  }

  /** The lines of `s` as `s.split(/\r?\n/)` gives them. */
  function SplitLines(s: string): (lines: seq<string>)
    ensures |lines| >= 1
    decreases |s|
  {
    var i := IndexOf(s, "\n");
    if i == -1 then [s] else [DropCarriageReturn(s[..i])] + SplitLines(s[i + 1..])
  }

  /** A line ended by "\r\n" loses its '\r' together with the '\n'. */
  function DropCarriageReturn(line: string): string {
    if |line| > 0 && line[|line| - 1] == '\r' then line[..|line| - 1] else line
  }

  /** The `length` of a JavaScript string: UTF-16 code units. */
  function Utf16Length(s: string): (n: nat)
    ensures |s| <= n <= 2 * |s|
  {
    if s == [] then 0
    else (if s[0] as int >= 0x1_0000 then 2 else 1) + Utf16Length(s[1..])
  }

  function DigitChar(d: nat): char
    requires d < 10
  {
    ['0', '1', '2', '3', '4', '5', '6', '7', '8', '9'][d]
  }

  predicate IsDigit(c: char) {
    '0' <= c <= '9'
  }

  /** The decimal text of a natural number, as Number.prototype.toString gives it below 10^21. */
  function NatToString(n: nat): (r: string)
    ensures |r| >= 1 && forall i :: 0 <= i < |r| ==> IsDigit(r[i])
  {
    if n < 10 then [DigitChar(n)] else NatToString(n / 10) + [DigitChar(n % 10)]
  }

  /** The decimal text of an integer. */
  function IntToString(n: int): string {
    if n < 0 then "-" + NatToString(-n) else NatToString(n)
  }

  /**
   * GetSubstitution of ECMAScript for a string pattern (no capture groups):
   * "$$" is '$', "$&" the match, "$`" the text before it, "$'" the text
   * after it; any other '$' stands for itself.
   */
  function Substitution(rep: string, s: string, pos: nat, len: nat): string
    requires pos + len <= |s|
    decreases |rep|
  {
    if rep == [] then ""
    else if rep[0] == '$' && |rep| >= 2 && rep[1] == '$' then "$" + Substitution(rep[2..], s, pos, len)
    else if rep[0] == '$' && |rep| >= 2 && rep[1] == '&' then s[pos..pos + len] + Substitution(rep[2..], s, pos, len)
    else if rep[0] == '$' && |rep| >= 2 && rep[1] == '`' then s[..pos] + Substitution(rep[2..], s, pos, len)
    else if rep[0] == '$' && |rep| >= 2 && rep[1] == '\'' then s[pos + len..] + Substitution(rep[2..], s, pos, len)
    else [rep[0]] + Substitution(rep[1..], s, pos, len)
  }

  /** A replacement without '$' is inserted literally. */
  lemma {:induction false} SubstitutionLiteral(rep: string, s: string, pos: nat, len: nat)
    requires pos + len <= |s|
    requires forall i :: 0 <= i < |rep| ==> rep[i] != '$'
    ensures Substitution(rep, s, pos, len) == rep
    decreases |rep|
  {
    if rep != [] {
      SubstitutionLiteral(rep[1..], s, pos, len);
    }
  }

  /** String.prototype.replaceAll(p, rep) for a non-empty string pattern, from index k. */
  function ReplaceFrom(s: string, p: string, rep: string, k: nat): string
    requires |p| > 0 && k <= |s|
    decreases |s| - k
  {
    var i := IndexOfFrom(s, p, k);
    if i == -1 then s[k..]
    else s[k..i] + Substitution(rep, s, i, |p|) + ReplaceFrom(s, p, rep, i + |p|)
  }

  function ReplaceAll(s: string, p: string, rep: string): string
    requires |p| > 0
  {
    ReplaceFrom(s, p, rep, 0)
  }

  /** One step of replaceAll with a '$'-free replacement: the text up to the match, then the replacement. */
  lemma ReplaceFromStep(s: string, p: string, rep: string, k: nat)
    requires |p| > 0 && k <= |s| && IndexOfFrom(s, p, k) != -1
    requires forall i :: 0 <= i < |rep| ==> rep[i] != '$'
    ensures var i := IndexOfFrom(s, p, k);
      ReplaceFrom(s, p, rep, k) == s[k..i] + rep + ReplaceFrom(s, p, rep, i + |p|)
  {
    SubstitutionLiteral(rep, s, IndexOfFrom(s, p, k), |p|);
  }

  /** With a '$'-free replacement, replaceAll is split-then-join: every occurrence becomes `rep`. */
  lemma {:induction false} ReplaceFromIsSplitJoin(s: string, p: string, rep: string, k: nat)
    requires |p| > 0 && k <= |s|
    requires forall i :: 0 <= i < |rep| ==> rep[i] != '$'
    ensures ReplaceFrom(s, p, rep, k) == Join(SplitFrom(s, p, k), rep)
    decreases |s| - k
  {
    var i := IndexOfFrom(s, p, k);
    if i != -1 {
      ReplaceFromStep(s, p, rep, k);
      ReplaceFromIsSplitJoin(s, p, rep, i + |p|);
      JoinSplitStep(s, p, rep, k);
    }
  }

  /** Text without the pattern comes back unchanged. */
  lemma ReplaceAllAbsent(s: string, p: string, rep: string)
    requires |p| > 0 && !Contains(s, p)
    ensures ReplaceAll(s, p, rep) == s
  {
  }

  /** One mismatching character rules out an occurrence. */
  lemma MismatchAt(s: string, p: string, j: nat, m: nat)
    requires m < |p| && j + m < |s| && s[j + m] != p[m]
    ensures !OccursAt(s, p, j)
  {
    if j + |p| <= |s| {
      assert s[j..j + |p|][m] == s[j + m];
    }
  }

  /** Searching `t + r` from a position past the end of `t` is searching `r`, shifted by the length of `t`. */
  lemma {:induction false} IndexOfFromShift(t: string, r: string, p: string, k: nat)
    requires k <= |r|
    ensures var i := IndexOfFrom(r, p, k);
      IndexOfFrom(t + r, p, |t| + k) == if i == -1 then -1 else |t| + i
    decreases |r| - k
  {
    if k + |p| <= |r| {
      assert (t + r)[|t| + k..|t| + k + |p|] == r[k..k + |p|];
      if r[k..k + |p|] != p {
        IndexOfFromShift(t, r, p, k + 1);
      }
    }
  }

  /** Where no occurrence starts inside `t` from `k` on, searching `t + r` from `k` finds what searching from the end of `t` finds. */
  lemma {:induction false} IndexOfFromSkip(t: string, r: string, p: string, k: nat)
    requires k <= |t|
    requires forall j :: k <= j < |t| ==> !OccursAt(t + r, p, j)
    ensures IndexOfFrom(t + r, p, k) == IndexOfFrom(t + r, p, |t|)
    decreases |t| - k
  {
    if k < |t| && k + |p| <= |t + r| {
      assert !OccursAt(t + r, p, k);
      IndexOfFromSkip(t, r, p, k + 1);
    }
  }

  /** replaceAll with a replacement inserted literally, from position k on. */
  function ReplaceLit(s: string, p: string, rep: string, k: nat): string
    requires |p| > 0 && k <= |s|
    decreases |s| - k
  {
    var i := IndexOfFrom(s, p, k);
    if i == -1 then s[k..] else s[k..i] + rep + ReplaceLit(s, p, rep, i + |p|)
  }

  /** With a '$'-free replacement, replaceAll inserts it literally. */
  lemma {:induction false} ReplaceFromIsLit(s: string, p: string, rep: string, k: nat)
    requires |p| > 0 && k <= |s|
    requires forall i :: 0 <= i < |rep| ==> rep[i] != '$'
    ensures ReplaceFrom(s, p, rep, k) == ReplaceLit(s, p, rep, k)
    decreases |s| - k
  {
    var i := IndexOfFrom(s, p, k);
    if i != -1 {
      ReplaceFromStep(s, p, rep, k);
      ReplaceFromIsLit(s, p, rep, i + |p|);
    }
  }

  /** One step of ReplaceLit at the match `i`, with the position after it named by the caller. */
  lemma LitAt(s: string, p: string, rep: string, k: nat, i: nat, j: nat)
    requires |p| > 0 && k <= |s| && IndexOfFrom(s, p, k) == i && j == i + |p|
    ensures j <= |s|
    ensures ReplaceLit(s, p, rep, k) == s[k..i] + rep + ReplaceLit(s, p, rep, j)
  {
  }

  /** ReplaceLit past the last match is the rest of the text. */
  lemma LitNone(s: string, p: string, rep: string, k: nat)
    requires |p| > 0 && k <= |s| && IndexOfFrom(s, p, k) == -1
    ensures ReplaceLit(s, p, rep, k) == s[k..]
  {
  }

  /** Replacing in `t + r` past the end of `t` is replacing in `r`. */
  lemma {:induction false} LitShift(t: string, r: string, p: string, rep: string, k: nat)
    requires |p| > 0 && k <= |r|
    ensures ReplaceLit(t + r, p, rep, |t| + k) == ReplaceLit(r, p, rep, k)
    decreases |r| - k, 1
  {
    IndexOfFromShift(t, r, p, k);
    if IndexOfFrom(r, p, k) == -1 {
      LitShiftNone(t, r, p, rep, k);
    } else {
      LitShiftFound(t, r, p, rep, k);
    }
  }

  /** LitShift where `r` holds a match from `k` on: shift the rest after it, then the step. */
  lemma {:induction false} LitShiftFound(t: string, r: string, p: string, rep: string, k: nat)
    requires |p| > 0 && k <= |r| && IndexOfFrom(r, p, k) != -1
    ensures ReplaceLit(t + r, p, rep, |t| + k) == ReplaceLit(r, p, rep, k)
    decreases |r| - k, 0
  {
    IndexOfFromShift(t, r, p, k);
    var i := IndexOfFrom(r, p, k);
    var d := i + |p|;
    LitShift(t, r, p, rep, d);
    AppendSlice(t, r, k, i);
    LitShiftMatch(t + r, r, p, rep, |t| + k, |t| + i, |t| + d, k, i, d);
  }

  /** The case of LitShift without a match: both sides are the rest of `r`. */
  lemma LitShiftNone(t: string, r: string, p: string, rep: string, k: nat)
    requires |p| > 0 && k <= |r|
    requires IndexOfFrom(r, p, k) == -1 && IndexOfFrom(t + r, p, |t| + k) == -1
    ensures ReplaceLit(t + r, p, rep, |t| + k) == ReplaceLit(r, p, rep, k)
  {
    LitNone(t + r, p, rep, |t| + k);
    LitNone(r, p, rep, k);
    AppendSlice(t, r, k, |r|);
  }

  /** The case of LitShift where the match is at `i` in `r` and at `b` in `s`: the texts before the matches agree, and so do the rests. */
  lemma LitShiftMatch(s: string, r: string, p: string, rep: string, a: nat, b: nat, c: nat, k: nat, i: nat, d: nat)
    requires |p| > 0 && a <= |s| && k <= |r|
    requires IndexOfFrom(s, p, a) == b && IndexOfFrom(r, p, k) == i
    requires c == b + |p| && d == i + |p|
    requires s[a..b] == r[k..i]
    requires ReplaceLit(s, p, rep, c) == ReplaceLit(r, p, rep, d)
    ensures ReplaceLit(s, p, rep, a) == ReplaceLit(r, p, rep, k)
  {
    LitAt(s, p, rep, a, b, c);
    LitAt(r, p, rep, k, i, d);
    ShiftGlue(ReplaceLit(s, p, rep, a), ReplaceLit(r, p, rep, k), s[a..b], r[k..i], rep, ReplaceLit(s, p, rep, c), ReplaceLit(r, p, rep, d));
  }

  /** Two texts built alike from equal parts are equal. */
  lemma ShiftGlue(x1: string, x2: string, u1: string, u2: string, rep: string, y1: string, y2: string)
    requires x1 == u1 + rep + y1 && x2 == u2 + rep + y2
    requires u1 == u2 && y1 == y2
    ensures x1 == x2
  {
  }

  /** The slice of `t + r` past the end of `t` is a slice of `r`. */
  lemma AppendSlice(t: string, r: string, k: nat, i: nat)
    requires k <= i <= |r|
    ensures (t + r)[|t| + k..|t| + i] == r[k..i]
  {
  }

  /** Concatenation regrouped. */
  lemma Regroup(a: string, b: string, c: string, d: string)
    ensures (a + b) + c + d == a + (b + c + d)
  {
  }

  /** Where searching from 0 and from `m` find the same match, replacing keeps the first `m` characters. */
  lemma LitSkip(s: string, p: string, rep: string, m: nat)
    requires |p| > 0 && m <= |s|
    requires IndexOfFrom(s, p, 0) == IndexOfFrom(s, p, m)
    ensures ReplaceLit(s, p, rep, 0) == s[..m] + ReplaceLit(s, p, rep, m)
  {
    var i := IndexOfFrom(s, p, 0);
    if i == -1 {
      LitSkipNone(s, p, rep, m);
    } else {
      LitSkipMatch(s, p, rep, m, i);
    }
  }

  /** The case of LitSkip without a match. */
  lemma LitSkipNone(s: string, p: string, rep: string, m: nat)
    requires |p| > 0 && m <= |s|
    requires IndexOfFrom(s, p, 0) == -1 && IndexOfFrom(s, p, m) == -1
    ensures ReplaceLit(s, p, rep, 0) == s[..m] + ReplaceLit(s, p, rep, m)
  {
    LitNone(s, p, rep, 0);
    LitNone(s, p, rep, m);
    PrefixSplit(s, m, |s|);
  }

  /** The case of LitSkip where both searches find the match at `i`. */
  lemma LitSkipMatch(s: string, p: string, rep: string, m: nat, i: nat)
    requires |p| > 0 && m <= |s|
    requires IndexOfFrom(s, p, 0) == i && IndexOfFrom(s, p, m) == i
    ensures ReplaceLit(s, p, rep, 0) == s[..m] + ReplaceLit(s, p, rep, m)
  {
    LitAt(s, p, rep, 0, i, i + |p|);
    LitAt(s, p, rep, m, i, i + |p|);
    PrefixSplit(s, m, i);
    SkipGlue(ReplaceLit(s, p, rep, 0), ReplaceLit(s, p, rep, m), s[0..i], s[..m], s[m..i], rep, ReplaceLit(s, p, rep, i + |p|));
  }

  /** A prefix cut in two. */
  lemma PrefixSplit(s: string, m: nat, i: nat)
    requires m <= i <= |s|
    ensures s[0..i] == s[..m] + s[m..i]
    ensures s[0..] == s[..m] + s[m..]
  {
  }

  /** Text whose first part is `a + b` is `a` followed by the text whose first part is `b`. */
  lemma SkipGlue(r0: string, rm: string, ab: string, a: string, b: string, rep: string, tail: string)
    requires r0 == ab + rep + tail && rm == b + rep + tail && ab == a + b
    ensures r0 == a + rm
  {
    Regroup(a, b, rep, tail);
  }

  /** Replacing in `t + r`, where no occurrence starts inside `t`, keeps `t` and replaces in `r`. */
  lemma ReplaceAfter(t: string, r: string, p: string, rep: string)
    requires |p| > 0
    requires forall i :: 0 <= i < |rep| ==> rep[i] != '$'
    requires forall j :: 0 <= j < |t| ==> !OccursAt(t + r, p, j)
    ensures ReplaceAll(t + r, p, rep) == t + ReplaceAll(r, p, rep)
  {
    ReplaceFromIsLit(t + r, p, rep, 0);
    ReplaceFromIsLit(r, p, rep, 0);
    IndexOfFromSkip(t, r, p, 0);
    LitSkip(t + r, p, rep, |t|);
    LitShift(t, r, p, rep, 0);
    assert |t| + 0 == |t|;
    assert (t + r)[..|t|] == t;
  }

  /** Replacing in `p + r`: the leading occurrence becomes `rep`, and the rest is replaced in `r`. */
  lemma ReplaceLeading(p: string, r: string, rep: string)
    requires |p| > 0
    requires forall i :: 0 <= i < |rep| ==> rep[i] != '$'
    ensures ReplaceAll(p + r, p, rep) == rep + ReplaceAll(r, p, rep)
  {
    ReplaceFromIsLit(p + r, p, rep, 0);
    ReplaceFromIsLit(r, p, rep, 0);
    LitLeading(p, r, rep);
  }

  /** Literal replacement in `p + r` puts `rep` first, then replaces in `r`. */
  lemma LitLeading(p: string, r: string, rep: string)
    requires |p| > 0
    ensures ReplaceLit(p + r, p, rep, 0) == rep + ReplaceLit(r, p, rep, 0)
  {
    IndexOfAtStart(p, r);
    LitAt(p + r, p, rep, 0, 0, |p| + 0);
    LitShift(p, r, p, rep, 0);
    DropEmpty(ReplaceLit(p + r, p, rep, 0), (p + r)[0..0], rep, ReplaceLit(p + r, p, rep, |p| + 0));
  }

  /** indexOf finds a leading occurrence at 0. */
  lemma IndexOfAtStart(p: string, r: string)
    requires |p| > 0
    ensures IndexOfFrom(p + r, p, 0) == 0
  {
    assert (p + r)[0..|p|] == p;
  }

  /** An empty text in front of a concatenation changes nothing. */
  lemma DropEmpty(a: string, e: string, rep: string, x: string)
    requires a == e + rep + x && |e| == 0
    ensures a == rep + x
  {
    assert e + rep == rep;
  }
}
