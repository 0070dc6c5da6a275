/**
 * The pattern language the GNX grammars are written in, and what matching a whole
 * sentence against a pattern means.
 *
 * A pattern is a flat list of slots.  Each slot holds one atom (a literal, `\d+`,
 * `\d{n}`, a character set, `\d{n}\.\d+`, `[^,]+`, `.{n}` or the trailing `.*`)
 * and says whether it is a capture group.  `Match` reads the slots left to right,
 * each atom taking as much text as it can, and succeeds only when the last slot
 * ends exactly at the end of the sentence.  For a well-formed pattern (every
 * greedy atom is followed by a comma literal, `.*` comes last) this greedy reading
 * finds a split of the sentence into slot texts if and only if one exists, and
 * that split is unique: `Match` is sound (`Match`'s own postcondition) and
 * complete (`MatchAccepted`), so it decides the full-match question a regular
 * expression built from the same atoms would.
 */
module Grammar {
  import opened Options
  import opened Text

  datatype Atom =
    | Literal(text: string)  // fixed text, such as "$GNX_" or ","
    | Digits                 // \d+      : one or more decimal digits
    | Fixed(width: nat)      // \d{n}    : exactly `width` decimal digits
    | OneOf(chars: string)   // [01]     : one character of the set
    | Decimal(whole: nat)    // \d{n}\.\d+ : `whole` digits, a point, one or more digits
    | Token                  // [^,]+    : one or more characters other than a comma
    | Any(width: nat)        // .{n}     : exactly `width` characters of any kind
    | Rest                   // .*       : whatever remains of the sentence

  /** A slot of a pattern: its atom, either inside a capture group or not. */
  datatype Slot = Group(atom: Atom) | Plain(atom: Atom)

  /** The texts an atom matches, independently of what surrounds them. */
  predicate Accepts(a: Atom, t: string) {
    match a
    case Literal(text) => t == text
    case Digits => IsNumeral(t)
    case Fixed(width) => |t| == width && AllIn(t, Digit)
    case OneOf(chars) => |t| == 1 && t[0] in chars
    case Decimal(whole) => IsDecimal(t, whole)
    case Token => |t| >= 1 && AllIn(t, NotComma)
    case Any(width) => |t| == width
    case Rest => true
  }

  /**
   * How many characters at the start of `s` the atom takes, reading greedily;
   * None when no prefix of `s` has the atom's form.
   */
  function Span(a: Atom, s: string): (r: Option<nat>)
    ensures r.Some? ==> r.value <= |s| && Accepts(a, s[..r.value])
  {
    match a
    case Literal(text) => if text <= s then Some(|text|) else None
    case Digits =>
      var n := RunLength(s, Digit);
      if n >= 1 then Some(n) else None
    case Fixed(width) =>
      if width <= |s| && AllIn(s[..width], Digit) then Some(width) else None
    case OneOf(chars) => if |s| >= 1 && s[0] in chars then Some(1) else None
    case Decimal(whole) =>
      if whole < |s| && AllIn(s[..whole], Digit) && s[whole] == '.' && RunLength(s[whole + 1..], Digit) >= 1
      then
        var n := whole + 1 + RunLength(s[whole + 1..], Digit);
        assert s[..n][..whole] == s[..whole];
        assert s[..n][whole + 1..] == s[whole + 1..][..n - whole - 1];
        Some(n)
      else None
    case Token =>
      var n := RunLength(s, NotComma);
      if n >= 1 then Some(n) else None
    case Any(width) => if width <= |s| then Some(width) else None
    case Rest => Some(|s|)
  }

  /** The atoms that read a run of unbounded length. */
  predicate Greedy(a: Atom) {
    a.Digits? || a.Decimal? || a.Token?
  }

  /** `rest` may follow text accepted by `a` without the greedy reading running into it. */
  predicate Stops(a: Atom, rest: string) {
    match a
    case Digits => rest == [] || !IsDigit(rest[0])
    case Decimal(_) => rest == [] || !IsDigit(rest[0])
    case Token => rest == [] || rest[0] == ','
    case Rest => rest == []
    case _ => true
  }

  /** Reading an atom greedily takes exactly an accepted text when what follows stops it. */
  lemma SpanOfAccepted(a: Atom, t: string, rest: string)
    requires Accepts(a, t) && Stops(a, rest)
    ensures Span(a, t + rest) == Some(|t|)
  {
    var s := t + rest;
    match a
    case Literal(text) =>
      assert s[..|t|] == t;
    case Digits =>
      RunLengthStops(t, rest, Digit);
    case Fixed(width) =>
      assert s[..width] == t;
    case OneOf(chars) =>
      assert s[0] == t[0];
    case Decimal(whole) =>
      DecimalSpan(whole, t, rest);
    case Token =>
      RunLengthStops(t, rest, NotComma);
    case Any(width) =>
    case Rest =>
      assert s == t;
  }

  /** A decimal followed by a non-digit is read exactly. */
  lemma DecimalSpan(whole: nat, t: string, rest: string)
    requires IsDecimal(t, whole) && (rest == [] || !IsDigit(rest[0]))
    ensures Span(Decimal(whole), t + rest) == Some(|t|)
  {
    var s := t + rest;
    assert s[..whole] == t[..whole];
    assert s[whole] == t[whole];
    assert s[whole + 1..] == t[whole + 1..] + rest;
    RunLengthStops(t[whole + 1..], rest, Digit);
  }

  /** The sentence a list of slot texts spells. */
  function Concat(p: seq<string>): string {
    if p == [] then [] else p[0] + Concat(p[1..])
  }

  lemma {:induction false} ConcatAppend(a: seq<string>, b: seq<string>)
    ensures Concat(a + b) == Concat(a) + Concat(b)
  {
    if a == [] {
      assert a + b == b;
    } else {
      assert (a + b)[1..] == a[1..] + b;
      ConcatAppend(a[1..], b);
    }
  }

  /** Moving a text from the front of the rest onto the end of the spelled list. */
  lemma ConcatSnoc(x: seq<string>, t: string, rest: string)
    ensures Concat(x) + (t + rest) == Concat(x + [t]) + rest
  {
    ConcatAppend(x, [t]);
    assert [t][1..] == [];
  }

  /**
   * Matches the whole of `s` against `g`, giving the text of every slot.  Whatever
   * it returns spells `s` and gives each slot a text its atom accepts.
   */
  function Match(g: seq<Slot>, s: string): (r: Option<seq<string>>)
    ensures r.Some? ==> |r.value| == |g| && Concat(r.value) == s
    ensures r.Some? ==> forall i :: 0 <= i < |g| ==> Accepts(g[i].atom, r.value[i])
    decreases |g|
  {
    if g == [] then
      if s == [] then Some([]) else None
    else
      match Span(g[0].atom, s)
      case None => None
      case Some(n) =>
        match Match(g[1..], s[n..])
        case None => None
        case Some(rest) =>
          ConsAccepted(g, s[..n], rest);
          assert s[..n] + s[n..] == s;
          Some([s[..n]] + rest)
  }

  /** Slot texts accepted slot by slot stay so with one more slot in front. */
  lemma ConsAccepted(g: seq<Slot>, head: string, rest: seq<string>)
    requires |g| == |rest| + 1 && Accepts(g[0].atom, head)
    requires forall i :: 0 <= i < |rest| ==> Accepts(g[1..][i].atom, rest[i])
    ensures ([head] + rest)[1..] == rest
    ensures forall i :: 0 <= i < |g| ==> Accepts(g[i].atom, ([head] + rest)[i])
  {
    var p := [head] + rest;
    assert p[1..] == rest;
    forall i | 0 <= i < |g|
      ensures Accepts(g[i].atom, p[i])
    {
      if i > 0 {
        assert g[i] == g[1..][i - 1];
      }
    }
  }

  predicate CommaLiteral(a: Atom) {
    a.Literal? && |a.text| >= 1 && a.text[0] == ','
  }

  /** Every greedy atom is followed by a literal starting with a comma, and `.*` is last. */
  predicate WellFormed(g: seq<Slot>) {
    forall i :: 0 <= i < |g| - 1 ==>
      !g[i].atom.Rest? && (Greedy(g[i].atom) ==> CommaLiteral(g[i + 1].atom))
  }

  /**
   * What follows the text of slot 0 stops that slot's greedy reading, when the
   * texts are accepted slot by slot.
   */
  lemma FollowerStops(g: seq<Slot>, p: seq<string>, tail: string)
    requires WellFormed(g) && 1 <= |p| <= |g|
    requires forall i :: 0 <= i < |p| ==> Accepts(g[i].atom, p[i])
    requires |p| == |g| ==> tail == []
    requires |p| == 1 && |g| > 1 ==> !Greedy(g[0].atom)
    ensures Stops(g[0].atom, Concat(p[1..]) + tail)
  {
    if |p| > 1 {
      assert p[1..][1..] == p[2..];
      assert Concat(p[1..]) + tail == p[1] + (Concat(p[2..]) + tail);
      if Greedy(g[0].atom) {
        assert p[1] == g[1].atom.text;
      }
    } else {
      assert p[1..] == [];
    }
  }

  /** Completeness: when the slot texts are accepted one by one, `Match` finds exactly them. */
  lemma {:induction false} MatchAccepted(g: seq<Slot>, p: seq<string>)
    requires WellFormed(g)
    requires |p| == |g|
    requires forall i :: 0 <= i < |g| ==> Accepts(g[i].atom, p[i])
    ensures Match(g, Concat(p)) == Some(p)
  {
    if g != [] {
      var rest := Concat(p[1..]);
      FollowerStops(g, p, []);
      assert rest + [] == rest;
      SpanOfAccepted(g[0].atom, p[0], rest);
      assert (p[0] + rest)[..|p[0]|] == p[0];
      assert (p[0] + rest)[|p[0]|..] == rest;
      assert WellFormed(g[1..]);
      MatchAccepted(g[1..], p[1..]);
      assert [p[0]] + p[1..] == p;
    }
  }

  /**
   * A sentence whose first slots are met but whose next slot cannot start where
   * they end is not matched, whatever follows.
   */
  lemma {:induction false} MatchRejects(g: seq<Slot>, p: seq<string>, tail: string)
    requires WellFormed(g)
    requires |p| < |g|
    requires forall i :: 0 <= i < |p| ==> Accepts(g[i].atom, p[i])
    requires |p| > 0 ==> !Greedy(g[|p| - 1].atom)
    requires Span(g[|p|].atom, tail) == None
    ensures Match(g, Concat(p) + tail) == None
  {
    if p == [] {
      assert Concat(p) + tail == tail;
    } else {
      var rest := Concat(p[1..]) + tail;
      FollowerStops(g, p, tail);
      SpanOfAccepted(g[0].atom, p[0], rest);
      assert Concat(p) + tail == p[0] + rest;
      assert (p[0] + rest)[..|p[0]|] == p[0];
      assert (p[0] + rest)[|p[0]|..] == rest;
      assert WellFormed(g[1..]);
      MatchRejects(g[1..], p[1..], tail);
    }
  }

  /** A pattern whose last slot neither reads greedily nor is `.*`: anything may be appended. */
  predicate Closed(g: seq<Slot>) {
    g != [] && !Greedy(g[|g| - 1].atom) && !g[|g| - 1].atom.Rest?
  }

  /** Appending to a closed well-formed pattern keeps it well formed. */
  lemma WellFormedAppend(a: seq<Slot>, b: seq<Slot>)
    requires WellFormed(a) && WellFormed(b)
    requires a != [] ==> Closed(a)
    ensures WellFormed(a + b)
    ensures Closed(b) ==> Closed(a + b)
  {
    var g := a + b;
    forall i | 0 <= i < |g| - 1
      ensures !g[i].atom.Rest? && (Greedy(g[i].atom) ==> CommaLiteral(g[i + 1].atom))
    {
      if i < |a| - 1 {
        assert g[i] == a[i] && g[i + 1] == a[i + 1];
      } else if i == |a| - 1 {
        assert g[i] == a[|a| - 1];
      } else {
        assert g[i] == b[i - |a|] && g[i + 1] == b[i + 1 - |a|];
      }
    }
  }

  /**
   * The entries of `p` that sit at capturing slots of `g`, in slot order. Applied to
   * the pieces of a match this is what `Matcher.group(1)`, `group(2)`, ... return:
   * group k + 1 is the k-th capturing slot's text, and an uncaptured slot yields nothing.
   */
  function Captured<T>(g: seq<Slot>, p: seq<T>): (r: seq<T>)
    requires |p| == |g|
    ensures |r| <= |g|
  {
    if g == [] then []
    else Captured(g[..|g| - 1], p[..|p| - 1]) + (if g[|g| - 1].Group? then [p[|p| - 1]] else [])
  }

  /** The atoms of the slots of `g`. */
  function Atoms(g: seq<Slot>): (r: seq<Atom>)
    ensures |r| == |g|
    ensures forall i :: 0 <= i < |g| ==> r[i] == g[i].atom
  {
    seq(|g|, i requires 0 <= i < |g| => g[i].atom)
  }

  /** The atoms of the capture groups of `g`, in group order. */
  function GroupAtoms(g: seq<Slot>): seq<Atom> {
    Captured(g, Atoms(g))
  }

  /** Selecting the captured entries commutes with concatenating patterns. */
  lemma {:induction false} CapturedAppend<T>(a: seq<Slot>, b: seq<Slot>, p: seq<T>, q: seq<T>)
    requires |p| == |a| && |q| == |b|
    ensures Captured(a + b, p + q) == Captured(a, p) + Captured(b, q)
    decreases |b|
  {
    if b == [] {
      assert a + b == a && p + q == p;
    } else {
      var b', q' := b[..|b| - 1], q[..|q| - 1];
      assert (a + b)[..|a + b| - 1] == a + b';
      assert (p + q)[..|p + q| - 1] == p + q';
      CapturedAppend(a, b', p, q');
    }
  }

  /** The groups of `a + b` are those of `a` followed by those of `b`. */
  lemma GroupAtomsAppend(a: seq<Slot>, b: seq<Slot>)
    ensures GroupAtoms(a + b) == GroupAtoms(a) + GroupAtoms(b)
  {
    assert Atoms(a + b) == Atoms(a) + Atoms(b);
    CapturedAppend(a, b, Atoms(a), Atoms(b));
  }

  /** The group texts of a three-part match are those of each part in turn. */
  lemma CapturedThree<T>(a: seq<Slot>, b: seq<Slot>, c: seq<Slot>, p: seq<T>, q: seq<T>, r: seq<T>)
    requires |p| == |a| && |q| == |b| && |r| == |c|
    ensures Captured(a + b + c, p + q + r) == Captured(a, p) + Captured(b, q) + Captured(c, r)
  {
    CapturedAppend(a, b, p, q);
    CapturedAppend(a + b, c, p + q, r);
  }

  /**
   * Every group text of a match is accepted by its group's atom, and there are as
   * many group texts as capture groups.
   */
  lemma {:induction false} GroupsAccepted(g: seq<Slot>, p: seq<string>)
    requires |p| == |g|
    requires forall i :: 0 <= i < |g| ==> Accepts(g[i].atom, p[i])
    ensures |Captured(g, p)| == |GroupAtoms(g)|
    ensures forall k :: 0 <= k < |Captured(g, p)| ==> Accepts(GroupAtoms(g)[k], Captured(g, p)[k])
    decreases |g|
  {
    if g != [] {
      var n := |g| - 1;
      assert Atoms(g)[..n] == Atoms(g[..n]);
      GroupsAccepted(g[..n], p[..n]);
    }
  }

  /** The slot texts `p` are one per slot of `g`, each accepted by its slot's atom. */
  predicate Fits(g: seq<Slot>, p: seq<string>) {
    |p| == |g| && forall i :: 0 <= i < |g| ==> Accepts(g[i].atom, p[i])
  }

  /** Texts fit a concatenated pattern exactly when each part fits its own part. */
  lemma FitsAppend(a: seq<Slot>, b: seq<Slot>, p: seq<string>, q: seq<string>)
    requires |p| == |a| && |q| == |b|
    ensures Fits(a + b, p + q) <==> Fits(a, p) && Fits(b, q)
  {
    if Fits(a + b, p + q) {
      forall i | 0 <= i < |a|
        ensures Accepts(a[i].atom, p[i])
      {
        assert (a + b)[i] == a[i] && (p + q)[i] == p[i];
      }
      forall i | 0 <= i < |b|
        ensures Accepts(b[i].atom, q[i])
      {
        assert (a + b)[|a| + i] == b[i] && (p + q)[|p| + i] == q[i];
      }
    }
    if Fits(a, p) && Fits(b, q) {
      forall i | 0 <= i < |a + b|
        ensures Accepts((a + b)[i].atom, (p + q)[i])
      {
        if i >= |a| {
          assert (a + b)[i] == b[i - |a|] && (p + q)[i] == q[i - |a|];
        }
      }
    }
  }

  /** The first k texts fit the first k slots. */
  lemma FitsPrefix(g: seq<Slot>, p: seq<string>, k: nat)
    requires Fits(g, p) && k <= |g|
    ensures Fits(g[..k], p[..k])
  {
  }

  /**
   * A sentence whose texts fit the slots of `a` and the first k slots of `b`, and
   * whose remainder slot k of `b` cannot start, does not match `a + b + c`.
   */
  lemma PrefixRejects(a: seq<Slot>, b: seq<Slot>, c: seq<Slot>, k: nat, p: seq<string>, tail: string)
    requires WellFormed(a + b + c) && k < |b|
    requires Fits(a + b[..k], p)
    requires k > 0 ==> !Greedy(b[k - 1].atom)
    requires k == 0 && a != [] ==> !Greedy(a[|a| - 1].atom)
    requires Span(b[k].atom, tail) == None
    ensures Match(a + b + c, Concat(p) + tail) == None
  {
    var g := a + b + c;
    assert g[|a| + k] == b[k];
    forall i | 0 <= i < |p|
      ensures Accepts(g[i].atom, p[i])
    {
      assert g[i] == (a + b[..k])[i];
    }
    if |p| > 0 {
      assert g[|p| - 1] == (a + b[..k])[|p| - 1];
    }
    MatchRejects(g, p, tail);
  }

  /** The three parts of a concatenation are its slices at the parts' boundaries. */
  lemma SliceParts<T>(a: seq<T>, b: seq<T>, c: seq<T>)
    ensures var i, j := |a|, |a| + |b|;
      (a + b + c)[..i] == a && (a + b + c)[i..j] == b && (a + b + c)[j..] == c
  {
  }

  /** Texts that fit three patterns in a row split into texts fitting each of them. */
  lemma FitsSplit(a: seq<Slot>, b: seq<Slot>, c: seq<Slot>, p: seq<string>)
    requires Fits(a + b + c, p)
    ensures var i, j := |a|, |a| + |b|;
      && p == p[..i] + p[i..j] + p[j..]
      && Fits(a, p[..i]) && Fits(b, p[i..j]) && Fits(c, p[j..])
  {
    var i, j := |a|, |a| + |b|;
    assert p == p[..i] + p[i..j] + p[j..];
    FitsAppend(a + b, c, p[..i] + p[i..j], p[j..]);
    FitsAppend(a, b, p[..i], p[i..j]);
  }

  /** The captured entries of a two-slot pattern. */
  lemma CapturedPair<T>(x: Slot, y: Slot, a: T, b: T)
    ensures Captured([x, y], [a, b])
         == (if x.Group? then [a] else []) + (if y.Group? then [b] else [])
  {
    assert [x, y][..1] == [x] && [a, b][..1] == [a];
    assert [x][..0] == [] && [a][..0] == [];
  }
}
