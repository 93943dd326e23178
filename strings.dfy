/**
 * The few Python `str` operations the career-advisor pages use, on `seq<char>`.
 * Only ASCII semantics are modelled: `strip()` removes the ASCII characters
 * Python calls whitespace and `lower()` maps `A`-`Z` to `a`-`z`.
 */
module Strings {

  /** Python's `str.isspace` on one ASCII character: space, `\t \n \v \f \r` and the separators 0x1C-0x1F. */
  predicate IsSpace(c: char) {
    c == ' ' || (9 <= c as int <= 13) || (28 <= c as int <= 31)
  }

  predicate IsUpper(c: char) {
    'A' <= c <= 'Z'
  }

  /** No whitespace at either end (what `strip()` guarantees of its result). */
  predicate Trimmed(s: string) {
    s == [] || (!IsSpace(s[0]) && !IsSpace(s[|s| - 1]))
  }

  /** Where `strip()` starts: the index of the first non-whitespace character at or after `i`, or `|s|`. */
  function StripStartFrom(s: string, i: nat): (k: nat)
    requires i <= |s|
    ensures i <= k <= |s|
    ensures forall j :: i <= j < k ==> IsSpace(s[j])
    ensures k < |s| ==> !IsSpace(s[k])
    decreases |s| - i
  {
    if i < |s| && IsSpace(s[i]) then StripStartFrom(s, i + 1) else i
  }

  /** The number of leading whitespace characters of `s`. */
  function StripStart(s: string): (k: nat)
    ensures k <= |s|
    ensures forall j :: 0 <= j < k ==> IsSpace(s[j])
    ensures k < |s| ==> !IsSpace(s[k])
  {
    StripStartFrom(s, 0)
  }

  /** Where `strip()` ends: one past the last non-whitespace character before `e`, or 0. */
  function StripEndBefore(s: string, e: nat): (r: nat)
    requires e <= |s|
    ensures r <= e
    ensures forall j :: r <= j < e ==> IsSpace(s[j])
    ensures r > 0 ==> !IsSpace(s[r - 1])
  {
    if e > 0 && IsSpace(s[e - 1]) then StripEndBefore(s, e - 1) else e
  }

  /** One past the last non-whitespace character of `s`, or 0 if there is none. */
  function StripEnd(s: string): (e: nat)
    ensures e <= |s|
    ensures forall j :: e <= j < |s| ==> IsSpace(s[j])
    ensures e > 0 ==> !IsSpace(s[e - 1])
  {
    StripEndBefore(s, |s|)
  }

  /**
   * Python's `strip()`. The result is the slice of `s` starting after the
   * leading whitespace; everything outside it is whitespace, and it neither
   * starts nor ends with whitespace.
   */
  function Strip(s: string): (r: string)
    ensures Trimmed(r)
    ensures StripStart(s) + |r| <= |s| && r == s[StripStart(s)..StripStart(s) + |r|]
    ensures forall i :: 0 <= i < |s| && !IsSpace(s[i]) ==> StripStart(s) <= i < StripStart(s) + |r|
  {
    var k, e := StripStart(s), StripEnd(s);
    if k < e then s[k..e] else []
  }

  /** `strip()` leaves an already trimmed string alone. */
  lemma StripTrimmed(s: string)
    requires Trimmed(s)
    ensures Strip(s) == s
  {
  }

  /**
   * `strip()` in terms of its two ends: given the leading-whitespace count `k`
   * and the end `e` of the last non-whitespace run, it is `s[k..e]`, or empty.
   */
  lemma StripAt(s: string, k: nat, e: nat)
    requires k <= |s| && e <= |s|
    requires forall j :: 0 <= j < k ==> IsSpace(s[j])
    requires k < |s| ==> !IsSpace(s[k])
    requires forall j :: e <= j < |s| ==> IsSpace(s[j])
    requires e > 0 ==> !IsSpace(s[e - 1])
    ensures Strip(s) == if k < e then s[k..e] else []
  {
    assert StripStart(s) == k;
    assert StripEnd(s) == e;
  }

  /** A space put in front of a trimmed, non-empty string is stripped off again. */
  lemma StripLeadingSpace(x: string)
    requires Trimmed(x) && x != []
    ensures Strip(" " + x) == x
  {
    var y := " " + x;
    assert forall j :: 1 <= j < |y| ==> y[j] == x[j - 1];
    StripAt(y, 1, |y|);
    assert y[1..|y|] == x;
  }

  /** Python's truthiness of `s.strip()` is false exactly when `s` is all whitespace. */
  predicate IsBlank(s: string) {
    forall i :: 0 <= i < |s| ==> IsSpace(s[i])
  }

  /** `IsBlank` is `strip()` giving the empty string. */
  lemma BlankIffStripEmpty(s: string)
    ensures IsBlank(s) <==> Strip(s) == []
  {
    if !IsBlank(s) {
      var i :| 0 <= i < |s| && !IsSpace(s[i]);
      assert StripStart(s) <= i < StripStart(s) + |Strip(s)|;
    }
  }

  function LowerChar(c: char): (d: char)
    ensures !IsUpper(d)
    ensures IsSpace(d) == IsSpace(c)
    ensures !IsUpper(c) ==> d == c
    ensures IsUpper(c) ==> d as int == c as int + 32
  {
    if IsUpper(c) then (c as int - 'A' as int + 'a' as int) as char else c
  }

  /** Python's `lower()` on ASCII: upper-case letters become lower-case, every other character is kept. */
  function Lower(s: string): (r: string)
    ensures |r| == |s|
    ensures forall i :: 0 <= i < |s| ==> !IsUpper(r[i]) && IsSpace(r[i]) == IsSpace(s[i])
    ensures forall i :: 0 <= i < |s| && !IsUpper(s[i]) ==> r[i] == s[i]
    ensures forall i :: 0 <= i < |s| && IsUpper(s[i]) ==> r[i] as int == s[i] as int + 32
  {
    seq(|s|, i requires 0 <= i < |s| => LowerChar(s[i]))
  }

  /** Python's `s.replace(a, b)` for one-character `a` and `b`: every `a` becomes `b`, nothing else changes. */
  function Replace(s: string, a: char, b: char): (r: string)
    ensures |r| == |s|
    ensures forall i :: 0 <= i < |s| ==> r[i] == (if s[i] == a then b else s[i])
    ensures a != b ==> a !in r
  {
    seq(|s|, i requires 0 <= i < |s| => if s[i] == a then b else s[i])
  }

  /** Replacing a character that does not occur changes nothing. */
  lemma ReplaceAbsent(s: string, a: char, b: char)
    requires a !in s
    ensures Replace(s, a, b) == s
  {
  }

  /** Python's `s.split(sep)` for a one-character separator: always at least one piece, none holding `sep`. */
  function Split(s: string, sep: char): (r: seq<string>)
    ensures |r| >= 1
    ensures forall p :: p in r ==> sep !in p
    ensures Join(r, sep) == s
  {
    if s == [] then [[]]
    else
      var rest := Split(s[1..], sep);
      if s[0] == sep then
        assert [[]] + rest == [[]] + [rest[0]] + rest[1..];
        [[]] + rest
      else
        var r := [[s[0]] + rest[0]] + rest[1..];
        assert r[1..] == rest[1..];
        r
  }

  /** Python's `sep.join(ps)` for a separator string. */
  function JoinWith(ps: seq<string>, sep: string): string
  {
    if |ps| == 0 then []
    else if |ps| == 1 then ps[0]
    else ps[0] + sep + JoinWith(ps[1..], sep)
  }

  /** Python's `sep.join(ps)` for a one-character separator. */
  function Join(ps: seq<string>, sep: char): string
  {
    JoinWith(ps, [sep])
  }

  /** Joining with `c` followed by more text is joining with `c` after prefixing that text to every later piece. */
  lemma {:induction false} JoinWithAsJoin(ps: seq<string>, c: char, pad: string)
    requires |ps| >= 1
    ensures JoinWith(ps, [c] + pad) == Join([ps[0]] + Padded(ps[1..], pad), c)
  {
    if |ps| > 1 {
      JoinWithAsJoin(ps[1..], c, pad);
      var q := Padded(ps[2..], pad);
      assert Padded(ps[1..], pad) == [pad + ps[1]] + q;
      assert ([ps[1]] + q)[1..] == q;
      assert ([pad + ps[1]] + q)[1..] == q;
      var qs := [ps[0]] + Padded(ps[1..], pad);
      assert qs[1..] == Padded(ps[1..], pad);
      if |ps| > 2 {
        assert Join(qs[1..], c) == pad + ps[1] + [c] + Join(q, c);
        assert JoinWith(ps[1..], [c] + pad) == ps[1] + ([c] + pad) + JoinWith(ps[2..], [c] + pad);
        assert Join([ps[1]] + q, c) == ps[1] + [c] + Join(q, c);
      } else {
        assert |qs| == 2 && qs[0] == ps[0] && qs[1..] == [pad + ps[1]];
        assert JoinWith(qs[1..], [c]) == pad + ps[1];
        assert JoinWith(qs, [c]) == ps[0] + [c] + (pad + ps[1]);
        assert JoinWith(ps[1..], [c] + pad) == ps[1];
        assert ps[0] + ([c] + pad) + ps[1] == ps[0] + [c] + (pad + ps[1]);
      }
    }
  }

  /** Every piece with `pad` put in front. */
  function Padded(ps: seq<string>, pad: string): (r: seq<string>)
    ensures |r| == |ps|
    ensures forall i :: 0 <= i < |ps| ==> r[i] == pad + ps[i]
  {
    if ps == [] then [] else [pad + ps[0]] + Padded(ps[1..], pad)
  }

  /** Splitting undoes joining, whenever no piece holds the separator. */
  lemma {:induction false} SplitJoin(ps: seq<string>, sep: char)
    requires |ps| >= 1
    requires forall p :: p in ps ==> sep !in p
    ensures Split(Join(ps, sep), sep) == ps
  {
    if |ps| == 1 {
      SplitPiece(ps[0], sep);
    } else {
      SplitJoin(ps[1..], sep);
      SplitPiecePrefix(ps[0], sep, Join(ps[1..], sep));
      assert ps == [ps[0]] + ps[1..];
    }
  }

  lemma {:induction false} SplitPiece(p: string, sep: char)
    requires sep !in p
    ensures Split(p, sep) == [p]
  {
    if p != [] {
      SplitPiece(p[1..], sep);
      assert [p[0]] + p[1..] == p;
    }
  }

  lemma {:induction false} SplitPiecePrefix(p: string, sep: char, t: string)
    requires sep !in p
    ensures Split(p + [sep] + t, sep) == [p] + Split(t, sep)
  {
    if p == [] {
      assert (p + [sep] + t)[1..] == t;
    } else {
      SplitPiecePrefix(p[1..], sep, t);
      assert (p + [sep] + t)[1..] == p[1..] + [sep] + t;
      assert [p[0]] + p[1..] == p;
    }
  }

  /** A character absent from every piece and distinct from the separator is absent from the join. */
  lemma {:induction false} JoinAvoids(ps: seq<string>, sep: char, c: char)
    requires c != sep
    requires forall p :: p in ps ==> c !in p
    ensures c !in Join(ps, sep)
  {
    if |ps| > 1 {
      JoinAvoids(ps[1..], sep, c);
    }
  }
}
