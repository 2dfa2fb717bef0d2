/** The pattern of the deprecated-API migration,
    `(\w+(?:\.\w+)*?)\.withOpacity\((\d+\.?\d*)\)`, as a hand-coded matcher
    anchored at one position of the text, and what a successful match found. */
module OpacityPattern {
  import opened Common

  /** The literal text between the receiver chain and the argument. */
  const OpacityCall: string := ".withOpacity("
  /** What the substitution writes in its place. */
  const ValuesCall: string := ".withValues(alpha: "

  // ---------------------------------------------------------------------
  // The pattern, piece by piece

  /** Length of the maximal run of word characters at the start of `t`
      (a greedy `\w+`, which never gains from backtracking here because the
      pattern always continues with '.'). */
  function WordRun(t: string): (n: nat)
    ensures n <= |t|
    ensures forall i :: 0 <= i < n ==> IsWordChar(t[i])
    ensures n < |t| ==> !IsWordChar(t[n])
  {
    if t != [] && IsWordChar(t[0]) then 1 + WordRun(t[1..]) else 0
  }

  predicate IsNumChar(c: char) {
    IsDigit(c) || c == '.'
  }

  /** Length of the maximal run of digits and dots at the start of `t`. */
  function NumRun(t: string): (n: nat)
    ensures n <= |t|
    ensures forall i :: 0 <= i < n ==> IsNumChar(t[i])
    ensures n < |t| ==> !IsNumChar(t[n])
  {
    if t != [] && IsNumChar(t[0]) then 1 + NumRun(t[1..]) else 0
  }

  function DigitRun(t: string): (n: nat)
    ensures n <= |t|
    ensures forall i :: 0 <= i < n ==> IsDigit(t[i])
    ensures n < |t| ==> !IsDigit(t[n])
  {
    if t != [] && IsDigit(t[0]) then 1 + DigitRun(t[1..]) else 0
  }

  /** The argument `\d+\.?\d*`: digits, then optionally one dot followed by
      any number of digits. */
  predicate IsNumberLiteral(s: string) {
    var d := DigitRun(s);
    d >= 1 && (d == |s| || (s[d] == '.' && AllDigits(s[d + 1..])))
  }

  /** Zero or more `.word` segments. */
  predicate IsSegments(e: string)
    decreases |e|
  {
    e == [] || (e[0] == '.' && WordRun(e[1..]) >= 1 && IsSegments(e[1 + WordRun(e[1..])..]))
  }

  /** The receiver `\w+(?:\.\w+)*`: a dotted chain of words. */
  predicate IsChain(c: string) {
    WordRun(c) >= 1 && IsSegments(c[WordRun(c)..])
  }

  /** The deprecated call on a number: `.withOpacity(N)`. */
  function CallText(num: string): string {
    OpacityCall + num + ")"
  }

  /** Its replacement: `.withValues(alpha: N)`. */
  function ValuesText(num: string): string {
    ValuesCall + num + ")"
  }

  /** One match: group 1 (the chain) and group 2 (the number). */
  datatype Hit = Hit(chain: string, num: string) {
    /** The text the pattern matched. */
    function Text(): string {
      chain + CallText(num)
    }
    /** The text the substitution writes instead. */
    function Replacement(): string {
      chain + ValuesText(num)
    }
    function Len(): nat {
      |chain| + |num| + 14
    }
  }

  /** `v` starts with `.withOpacity(`, checked character by character. */
  predicate IsOpacityCallAt(v: string) {
    |v| >= 13 && v[0] == '.' && v[1] == 'w' && v[2] == 'i' && v[3] == 't' && v[4] == 'h'
    && v[5] == 'O' && v[6] == 'p' && v[7] == 'a' && v[8] == 'c' && v[9] == 'i' && v[10] == 't'
    && v[11] == 'y' && v[12] == '('
  }

  /** The character test is the literal prefix test. */
  lemma OpacityCallAtIsPrefix(v: string)
    ensures IsOpacityCallAt(v) <==> StartsWith(v, OpacityCall)
  {
    if IsOpacityCallAt(v) {
      assert v[..13] == OpacityCall;
    }
    if StartsWith(v, OpacityCall) {
      assert forall i :: 0 <= i < 13 ==> v[i] == v[..13][i];
    }
  }

  /** The tail `\.withOpacity\((\d+\.?\d*)\)` at the start of `v`, giving the
      number when it is there. Since the number consists of digits and dots
      only, the closing parenthesis must be the first other character. */
  function TailAt(v: string): Option<string> {
    if IsOpacityCallAt(v) then
      var rest := v[13..];
      var n := NumRun(rest);
      if n < |rest| && rest[n] == ')' && IsNumberLiteral(rest[..n]) then Some(rest[..n])
      else None
    else None
  }

  /** What the tail found: a number literal, spelled out in the call text. */
  lemma TailSound(v: string, num: string)
    requires TailAt(v) == Some(num)
    ensures IsNumberLiteral(num) && 14 + |num| <= |v|
    ensures v[..14 + |num|] == CallText(num)
  {
    var rest := v[13..];
    var n := NumRun(rest);
    assert v[..14 + n] == v[..13] + rest[..n] + [rest[n]];
  }

  /** A hit found further on, with the text `p` read before it added to the
      front of its chain. */
  function Prepend(p: string, r: Option<Hit>): Option<Hit> {
    match r
    case None => None
    case Some(h) => Some(Hit(p + h.chain, h.num))
  }

  /** The lazy repetition `(?:\.\w+)*?`: after the chain read so far, first
      try the tail, and only if it fails take one more `.word` segment.
      The hit returned carries the segments taken (possibly none). */
  function Search(v: string): (r: Option<Hit>)
    decreases |v|, 1
  {
    match TailAt(v)
    case Some(num) => Some(Hit("", num))
    case None => Extend(v)
  }

  /** Taking one more `.word` segment and searching on after it. */
  function Extend(v: string): (r: Option<Hit>)
    decreases |v|, 0
  {
    if |v| >= 1 && v[0] == '.' && WordRun(v[1..]) >= 1 then
      var k := 1 + WordRun(v[1..]);
      Prepend(v[..k], Search(v[k..]))
    else None
  }

  /** The whole pattern anchored at the start of `t`: Python's attempt to
      match at one position. */
  function MatchPrefix(t: string): (r: Option<Hit>)
  {
    var n := WordRun(t);
    if n == 0 then None else Prepend(t[..n], Search(t[n..]))
  }

  /** Where the tail fails at a dot followed by a word, the search reads
      that segment and goes on after it. */
  lemma SearchExtends(v: string, k: nat)
    requires TailAt(v).None? && |v| >= 1 && v[0] == '.' && 2 <= k && k == 1 + WordRun(v[1..])
    ensures Search(v) == Prepend(v[..k], Search(v[k..]))
  {
    SearchIsExtend(v);
    ExtendUnfolds(v, k);
  }

  lemma SearchIsExtend(v: string)
    requires TailAt(v).None?
    ensures Search(v) == Extend(v)
  {
  }

  lemma ExtendUnfolds(v: string, k: nat)
    requires |v| >= 1 && v[0] == '.' && 2 <= k && k == 1 + WordRun(v[1..])
    ensures Extend(v) == Prepend(v[..k], Search(v[k..]))
  {
  }

  /** A search hit that is not the tail is one `.word` segment, ending at
      `k`, in front of a hit `h'` found after it. */
  lemma SearchParts(v: string, h: Hit) returns (k: nat, h': Hit)
    requires Search(v) == Some(h) && TailAt(v).None?
    ensures 2 <= k <= |v| && v[0] == '.' && k == 1 + WordRun(v[1..])
    ensures Search(v[k..]) == Some(h') && h == Hit(v[..k] + h'.chain, h'.num)
  {
    k := 1 + WordRun(v[1..]);
    h' := Search(v[k..]).value;
  }

  /** A match is the word run at the start, ending at `n`, in front of a
      search hit `h'` found after it. */
  lemma MatchParts(t: string, h: Hit) returns (n: nat, h': Hit)
    requires MatchPrefix(t) == Some(h)
    ensures 1 <= n <= |t| && n == WordRun(t)
    ensures Search(t[n..]) == Some(h') && h == Hit(t[..n] + h'.chain, h'.num)
  {
    n := WordRun(t);
    h' := Search(t[n..]).value;
  }

  /** Putting a prefix in front of the chain puts it in front of the text. */
  lemma TextWithPrefix(p: string, h: Hit)
    ensures Hit(p + h.chain, h.num).Text() == p + h.Text()
    ensures Hit(p + h.chain, h.num).Len() == |p| + h.Len()
  {
  }

  /** A segment followed by segments is segments. */
  lemma SegmentsCons(p: string, e: string)
    requires |p| >= 2 && p[0] == '.' && WordRun(p[1..]) == |p| - 1
    requires IsSegments(e) && (e == [] || e[0] == '.')
    ensures IsSegments(p + e)
  {
    var w := p[1..];
    AppendDrop(p, e, 1);
    WordRunOn(w, e);
    AppendDropAll(p, e);
  }

  lemma {:induction false} WordRunOn(w: string, y: string)
    requires forall i :: 0 <= i < |w| ==> IsWordChar(w[i])
    requires y == [] || !IsWordChar(y[0])
    ensures WordRun(w + y) == |w|
  {
    if w != [] {
      assert (w + y)[1..] == w[1..] + y;
      WordRunOn(w[1..], y);
    }
  }

  /** What a successful search found: segments, a number literal and the
      exact text it stands for. */
  lemma {:induction false} SearchSound(v: string, h: Hit)
    requires Search(v) == Some(h)
    ensures IsSegments(h.chain) && IsNumberLiteral(h.num)
    ensures h.Len() <= |v| && v[..h.Len()] == h.Text()
    decreases |v|
  {
    match TailAt(v)
    case Some(num) =>
      TailSound(v, num);
    case None =>
      var k, h' := SearchParts(v, h);
      SearchSound(v[k..], h');
      ExtendHit(v, k, h');
  }

  /** One more `.word` segment in front of a hit found further on. */
  lemma ExtendHit(v: string, k: nat, h: Hit)
    requires 2 <= k <= |v| && v[0] == '.' && k == 1 + WordRun(v[1..])
    requires IsSegments(h.chain) && h.Len() <= |v| - k && v[k..][..h.Len()] == h.Text()
    ensures Hit(v[..k] + h.chain, h.num).Len() <= |v|
    ensures v[..Hit(v[..k] + h.chain, h.num).Len()] == Hit(v[..k] + h.chain, h.num).Text()
    ensures IsSegments(v[..k] + h.chain)
  {
    TextWithPrefix(v[..k], h);
    TakeSplit(v, k, h.Len());
    TakeTail(v, k);
    WordRunPrefix(v[1..], v[..k][1..]);
    assert h.chain == [] || h.chain[0] == '.' by {
      if h.chain != [] { assert h.Text()[0] == h.chain[0]; }
    }
    SegmentsCons(v[..k], h.chain);
  }

  /** What a match found: a chain, a number literal and the exact text it
      stands for, at the start of `t`. */
  lemma MatchSound(t: string, h: Hit)
    requires MatchPrefix(t) == Some(h)
    ensures IsChain(h.chain) && IsNumberLiteral(h.num)
    ensures h.Len() <= |t| && t[..h.Len()] == h.Text()
  {
    var n, h' := MatchParts(t, h);
    SearchSound(t[n..], h');
    StartHit(t, n, h');
  }

  /** The first word in front of the segments found after it. */
  lemma StartHit(t: string, n: nat, h: Hit)
    requires 1 <= n <= |t| && n == WordRun(t)
    requires IsSegments(h.chain) && h.Len() <= |t| - n && t[n..][..h.Len()] == h.Text()
    ensures Hit(t[..n] + h.chain, h.num).Len() <= |t|
    ensures t[..Hit(t[..n] + h.chain, h.num).Len()] == Hit(t[..n] + h.chain, h.num).Text()
    ensures IsChain(t[..n] + h.chain)
  {
    var c := t[..n] + h.chain;
    TextWithPrefix(t[..n], h);
    TakeSplit(t, n, h.Len());
    assert h.chain == [] || h.chain[0] == '.' by {
      if h.chain != [] { assert h.Text()[0] == h.chain[0]; }
    }
    WordRunPrefix(t, c);
    assert c[WordRun(c)..] == h.chain;
  }

  /** The word run of `t` is the same in any text that agrees with `t` up to
      and including the first non-word character after the run. */
  lemma {:induction false} WordRunPrefix(t: string, u: string)
    requires WordRun(t) <= |u|
    requires u[..WordRun(t)] == t[..WordRun(t)]
    requires WordRun(t) < |u| ==> !IsWordChar(u[WordRun(t)])
    ensures WordRun(u) == WordRun(t)
  {
    if WordRun(t) > 0 {
      assert u[1..][..WordRun(t[1..])] == t[1..][..WordRun(t[1..])];
      WordRunPrefix(t[1..], u[1..]);
    }
  }

  // ---------------------------------------------------------------------
  // The substitution

  /** `re.sub(pattern, replacement, t)`: scan left to right, replace every
      match, copy every other character. */
  function Rewrite(t: string): string
    decreases |t|
  {
    if t == [] then []
    else match MatchPrefix(t)
      case Some(h) =>
        MatchSound(t, h);
        h.Replacement() + Rewrite(t[h.Len()..])
      case None => [t[0]] + Rewrite(t[1..])
  }

  /** One step of the scan where a match starts: the replacement is written
      and the matched text skipped. */
  lemma RewriteHit(t: string, h: Hit)
    requires MatchPrefix(t) == Some(h)
    ensures 14 <= h.Len() <= |t|
    ensures Rewrite(t) == h.Replacement() + Rewrite(t[h.Len()..])
  {
    MatchSound(t, h);
  }

  /** One step of the scan where no match starts: one character is copied. */
  lemma RewriteMiss(t: string)
    requires t != [] && MatchPrefix(t).None?
    ensures Rewrite(t) == [t[0]] + Rewrite(t[1..])
  {
  }

  /** What one step of the scan writes and how far it advances. */
  function Step(t: string): (r: (string, nat))
    requires t != []
    ensures 1 <= r.1 <= |t|
    ensures Rewrite(t) == r.0 + Rewrite(t[r.1..])
  {
    match MatchPrefix(t)
    case Some(h) =>
      RewriteHit(t, h);
      (h.Replacement(), h.Len())
    case None =>
      RewriteMiss(t);
      ([t[0]], 1)
  }

}
