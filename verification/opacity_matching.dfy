/** What the matcher accepts and rejects: deprecated calls are matched
    whole, a match depends only on the text it covers, and no match can start
    inside the text a replacement writes. */
module OpacityMatching {
  import opened Common
  import opened OpacityPattern

  // ---------------------------------------------------------------------
  // What the substitution does to a call in the deprecated form

  /** Every dotted chain followed by `.withOpacity(N)` with a number literal
      N is matched with exactly that chain and that number, whatever follows. */
  lemma CallIsMatched(c: string, n: string, y: string)
    requires IsChain(c) && IsNumberLiteral(n)
    ensures MatchPrefix(c + CallText(n) + y) == Some(Hit(c, n))
  {
    var x := CallText(n) + y;
    var t := c + x;
    AppendAssoc(c, CallText(n), y);
    var w := WordRun(c);
    assert x[0] == '.';
    AppendTake(c, x, w);
    WordRunPrefix(c, t);
    AppendDrop(c, x, w);
    SegmentsThenCall(c[w..], n, y);
    TakeDrop(c, w);
  }

  lemma {:induction false} SegmentsThenCall(e: string, n: string, y: string)
    requires IsSegments(e) && IsNumberLiteral(n)
    ensures Search(e + (CallText(n) + y)) == Some(Hit(e, n))
    decreases |e|
  {
    var x := CallText(n) + y;
    if e == [] {
      assert e + x == x;
      TailOfCall(n, y);
    } else {
      var k := SegmentBeforeDot(e, x);
      SegmentsThenCall(e[k..], n, y);
      ExtendCallHit(e, x, k, n);
    }
  }

  lemma ExtendCallHit(e: string, x: string, k: nat, n: string)
    requires 2 <= k <= |e| && TailAt(e + x).None? && (e + x)[0] == '.'
    requires k == 1 + WordRun((e + x)[1..]) && (e + x)[k..] == e[k..] + x
    requires Search(e[k..] + x) == Some(Hit(e[k..], n))
    ensures Search(e + x) == Some(Hit(e, n))
  {
    SearchExtends(e + x, k);
    AppendTake(e, x, k);
    TakeDrop(e, k);
  }

  /** Reading the first segment of `e + x`, where `x` starts with a dot:
      the tail fails there, and the segment ends where it ends in `e`. */
  lemma SegmentBeforeDot(e: string, x: string) returns (k: nat)
    requires IsSegments(e) && e != [] && x != [] && x[0] == '.'
    ensures k == 1 + WordRun(e[1..]) && 2 <= k <= |e|
    ensures TailAt(e + x).None? && (e + x)[0] == '.' && k == 1 + WordRun((e + x)[1..])
    ensures (e + x)[k..] == e[k..] + x && IsSegments(e[k..])
  {
    var v := e + x;
    k := 1 + WordRun(e[1..]);
    assert v[k] == '.' by {
      if k < |e| { assert e[k..][0] == '.'; } else { assert v[k] == x[0]; }
    }
    assert forall j :: 1 <= j < k ==> v[j] == e[1..][j - 1];
    NoTailBeforeDot(v, k);
    AppendDrop(e, x, 1);
    AppendTake(e[1..], x, k - 1);
    WordRunPrefix(e[1..], v[1..]);
    AppendDrop(e, x, k);
  }

  /** The tail cannot start at a '.' that is followed by a word and then
      another '.': ".withOpacity(" has its '(' where that text has a word
      character or a dot. */
  lemma NoTailBeforeDot(v: string, k: nat)
    requires 2 <= k < |v| && v[0] == '.' && v[k] == '.'
    requires forall j :: 1 <= j < k ==> IsWordChar(v[j])
    ensures TailAt(v).None?
  {
    if k <= 12 {
      assert v[k] != OpacityCall[k];
    } else {
      assert v[12] != OpacityCall[12];
    }
  }

  lemma TailOfCall(n: string, y: string)
    requires IsNumberLiteral(n)
    ensures TailAt(CallText(n) + y) == Some(n)
  {
    var v := CallText(n) + y;
    assert v[..13] == OpacityCall;
    OpacityCallAtIsPrefix(v);
    var rest := v[13..];
    assert rest == n + (")" + y);
    NumberChars(n);
    NumRunOfLiteral(n, ")" + y);
    assert rest[|n|] == ')';
    assert rest[..|n|] == n;
  }

  lemma {:induction false} NumRunOfLiteral(n: string, y: string)
    requires forall i :: 0 <= i < |n| ==> IsNumChar(n[i])
    requires y != [] && !IsNumChar(y[0])
    ensures NumRun(n + y) == |n|
  {
    if n != [] {
      assert (n + y)[1..] == n[1..] + y;
      NumRunOfLiteral(n[1..], y);
    }
  }

  /** A text ending in its only ')' and containing no space: the shape of
      every matched text. */
  predicate Closed(w: string) {
    |w| >= 1 && w[|w| - 1] == ')' && ' ' !in w && ')' !in w[..|w| - 1]
  }

  lemma {:induction false} SegmentChars(e: string)
    requires IsSegments(e)
    ensures forall i :: 0 <= i < |e| ==> IsChainChar(e[i])
    decreases |e|
  {
    if e != [] {
      var k := 1 + WordRun(e[1..]);
      SegmentChars(e[k..]);
      assert forall i :: k <= i < |e| ==> e[i] == e[k..][i - k];
      assert forall i :: 1 <= i < k ==> e[i] == e[1..][i - 1];
    }
  }

  lemma ChainChars(c: string)
    requires IsChain(c)
    ensures forall i :: 0 <= i < |c| ==> IsChainChar(c[i])
  {
    var w := WordRun(c);
    SegmentChars(c[w..]);
    assert forall i :: w <= i < |c| ==> c[i] == c[w..][i - w];
  }

  lemma NumberChars(n: string)
    requires IsNumberLiteral(n)
    ensures forall i :: 0 <= i < |n| ==> IsNumChar(n[i])
  {
    var d := DigitRun(n);
    if d < |n| {
      assert forall i :: d + 1 <= i < |n| ==> n[i] == n[d + 1..][i - d - 1];
    }
  }

  /** A character a receiver chain may contain. */
  predicate IsChainChar(c: char) {
    IsWordChar(c) || c == '.'
  }

  lemma OpacityCallLayout()
    ensures |OpacityCall| == 13 && OpacityCall[12] == '('
    ensures forall i :: 0 <= i < 12 ==> IsChainChar(OpacityCall[i])
  {
  }

  lemma ValuesCallLayout()
    ensures |ValuesCall| == 19 && ValuesCall[11] == '(' && ValuesCall[18] == ' '
    ensures forall i :: 0 <= i < 11 ==> IsChainChar(ValuesCall[i])
    ensures forall i :: 12 <= i < 18 ==> ValuesCall[i] != ')' && ValuesCall[i] != ' '
  {
  }

  /** Where the characters of a matched text come from: chain characters up
      to the '(' at |chain| + 12, then the number, then ')'. */
  lemma TextLayout(h: Hit)
    requires IsChain(h.chain) && IsNumberLiteral(h.num)
    ensures |h.Text()| == |h.chain| + |h.num| + 14
    ensures forall i :: 0 <= i < |h.chain| + 12 ==> IsChainChar(h.Text()[i])
    ensures h.Text()[|h.chain| + 12] == '('
    ensures forall i :: |h.chain| + 12 < i < |h.Text()| - 1 ==> IsNumChar(h.Text()[i])
    ensures h.Text()[|h.Text()| - 1] == ')'
  {
    ChainChars(h.chain);
    NumberChars(h.num);
    OpacityCallLayout();
    var w := h.Text();
    var c := |h.chain|;
    assert w == h.chain + OpacityCall + h.num + [')'];
    assert forall i :: 0 <= i < c ==> w[i] == h.chain[i];
    assert forall i :: c <= i < c + 13 ==> w[i] == OpacityCall[i - c];
    assert forall i :: c + 13 <= i < c + 13 + |h.num| ==> w[i] == h.num[i - c - 13];
  }

  /** Matched text is Closed, and its only '(' sits at |chain| + 12. */
  lemma HitShape(h: Hit)
    requires IsChain(h.chain) && IsNumberLiteral(h.num)
    ensures Closed(h.Text())
    ensures h.Text()[|h.chain| + 12] == '('
    ensures forall i :: 0 <= i < |h.Text()| && i != |h.chain| + 12 ==> h.Text()[i] != '('
  {
    TextLayout(h);
    var w := h.Text();
    var p := w[..|w| - 1];
    assert forall i :: 0 <= i < |w| ==> w[i] != ' ';
    assert forall i :: 0 <= i < |p| ==> p[i] == w[i];
    assert forall i :: 0 <= i < |p| ==> p[i] != ')';
  }

  /** Where the characters of a replacement come from: no ')' and no space
      before the space at |chain| + 18, then the number, then ')'. */
  lemma ReplacementShape(h: Hit)
    requires IsChain(h.chain) && IsNumberLiteral(h.num)
    ensures |h.Replacement()| == |h.chain| + |h.num| + 20
    ensures forall i :: 0 <= i < |h.chain| + 18 ==> h.Replacement()[i] != ')' && h.Replacement()[i] != ' '
    ensures h.Replacement()[|h.chain| + 18] == ' '
    ensures forall i :: |h.chain| + 18 < i < |h.Replacement()| - 1 ==> IsNumChar(h.Replacement()[i])
    ensures h.Replacement()[|h.Replacement()| - 1] == ')'
  {
    ChainChars(h.chain);
    NumberChars(h.num);
    ValuesCallLayout();
    var r := h.Replacement();
    var c := |h.chain|;
    assert r == h.chain + ValuesCall + h.num + [')'];
    assert forall i :: 0 <= i < c ==> r[i] == h.chain[i];
    assert forall i :: c <= i < c + 19 ==> r[i] == ValuesCall[i - c];
    assert forall i :: c + 19 <= i < c + 19 + |h.num| ==> r[i] == h.num[i - c - 19];
  }

  /** A search hit in `v1` is found in any `v2` that agrees with `v1` up to
      the end of the hit: matching looks no further than the text it
      matches. The hit ends in ')'. */
  lemma {:induction false} SearchAgree(v1: string, v2: string, m: nat, h: Hit)
    requires Search(v1) == Some(h) && h.Len() <= m && SamePrefix(v1, v2, m)
    ensures Search(v2) == Some(h)
    decreases |v1|
  {
    match TailAt(v1)
    case Some(num) =>
      TailCaseAgree(v1, v2, m, h);
    case None =>
      var k, h' := SearchParts(v1, h);
      SamePrefixDrop(v1, v2, m, k);
      SearchAgree(v1[k..], v2[k..], m - k, h');
      SearchAgreeStep(v1, v2, m, h, k);
  }

  lemma TailCaseAgree(v1: string, v2: string, m: nat, h: Hit)
    requires Search(v1) == Some(h) && TailAt(v1).Some? && h.Len() <= m && SamePrefix(v1, v2, m)
    ensures Search(v2) == Some(h)
  {
    SearchEnd(v1, h);
    SamePrefixShorter(v1, v2, m, h.Len());
    TailAgree(v1, v2, h.Len() - 1);
  }

  /** A search hit ends in ')'. */
  lemma SearchEnd(v: string, h: Hit)
    requires Search(v) == Some(h)
    ensures 14 <= h.Len() <= |v| && v[h.Len() - 1] == ')'
  {
    SearchSound(v, h);
    TextEnd(v, h);
  }

  /** A match ends in ')'. */
  lemma MatchEnd(t: string, h: Hit)
    requires MatchPrefix(t) == Some(h)
    ensures 14 <= h.Len() <= |t| && t[h.Len() - 1] == ')'
  {
    MatchSound(t, h);
    TextEnd(t, h);
  }

  /** A text that spells a hit ends in the hit's closing parenthesis. */
  lemma TextEnd(v: string, h: Hit)
    requires h.Len() <= |v| && v[..h.Len()] == h.Text()
    ensures v[h.Len() - 1] == ')'
  {
    assert v[..h.Len()][h.Len() - 1] == v[h.Len() - 1];
  }

  /** The extension step of SearchAgree: the hit ends in ')' inside the
      common prefix, so the tail test and the word after the dot agree. */
  lemma SearchAgreeStep(v1: string, v2: string, m: nat, h: Hit, k: nat)
    requires Search(v1) == Some(h) && h.Len() <= m && SamePrefix(v1, v2, m)
    requires TailAt(v1).None? && v1[0] == '.' && 2 <= k && k == 1 + WordRun(v1[1..])
    requires k <= m && Search(v2[k..]) == Search(v1[k..])
    ensures Search(v2) == Some(h)
  {
    SearchEnd(v1, h);
    SegmentAgree(v1, v2, m, h.Len() - 1, k);
    SearchExtends(v1, k);
    SearchExtends(v2, k);
  }

  /** Up to a ')' at `q` inside the common prefix, the tail test and the
      `.word` segment read at the start agree. */
  lemma SegmentAgree(v1: string, v2: string, m: nat, q: nat, k: nat)
    requires 13 <= q < m && SamePrefix(v1, v2, m) && v1[q] == ')'
    requires v1[0] == '.' && 2 <= k && k == 1 + WordRun(v1[1..])
    ensures TailAt(v2) == TailAt(v1)
    ensures v2[0] == '.' && k == 1 + WordRun(v2[1..]) && v2[..k] == v1[..k]
  {
    SamePrefixShorter(v1, v2, m, q + 1);
    TailAgree(v1, v2, q);
    SamePrefixAt(v1, v2, q + 1, 0);
    SamePrefixDrop(v1, v2, q + 1, 1);
    WordRunAgree(v1[1..], v2[1..], q - 1);
    SamePrefixShorter(v1, v2, q + 1, k);
  }

  lemma TailAgree(v1: string, v2: string, q: nat)
    requires 13 <= q && SamePrefix(v1, v2, q + 1) && v1[q] == ')'
    ensures TailAt(v2) == TailAt(v1)
  {
    SamePrefixShorter(v1, v2, q + 1, 13);
    SamePrefixDrop(v1, v2, q + 1, 13);
    var r1, r2 := v1[13..], v2[13..];
    assert r1[q - 13] == ')';
    NumRunAgree(r1, r2, q - 13);
    var n := NumRun(r1);
    SamePrefixAt(r1, r2, q - 12, n);
    SamePrefixShorter(r1, r2, q - 12, n);
  }

  lemma {:induction false} WordRunAgree(v1: string, v2: string, q: nat)
    requires SamePrefix(v1, v2, q + 1) && !IsWordChar(v1[q])
    ensures WordRun(v2) == WordRun(v1)
  {
    SamePrefixAt(v1, v2, q + 1, 0);
    if q > 0 && IsWordChar(v1[0]) {
      SamePrefixDrop(v1, v2, q + 1, 1);
      WordRunAgree(v1[1..], v2[1..], q - 1);
    }
  }

  lemma {:induction false} NumRunAgree(v1: string, v2: string, q: nat)
    requires SamePrefix(v1, v2, q + 1) && !IsNumChar(v1[q])
    ensures NumRun(v2) == NumRun(v1)
  {
    SamePrefixAt(v1, v2, q + 1, 0);
    if q > 0 && IsNumChar(v1[0]) {
      SamePrefixDrop(v1, v2, q + 1, 1);
      NumRunAgree(v1[1..], v2[1..], q - 1);
    }
  }

  /** A match at the start of `t1` is the match at the start of any `t2`
      that agrees with `t1` up to the end of the match. */
  lemma MatchAgree(t1: string, t2: string, m: nat, h: Hit)
    requires MatchPrefix(t1) == Some(h) && h.Len() <= m && SamePrefix(t1, t2, m)
    ensures MatchPrefix(t2) == Some(h)
  {
    var n, h' := MatchParts(t1, h);
    SamePrefixDrop(t1, t2, m, n);
    SearchAgree(t1[n..], t2[n..], m - n, h');
    MatchAgreeStep(t1, t2, m, h, n);
  }

  lemma MatchAgreeStep(t1: string, t2: string, m: nat, h: Hit, n: nat)
    requires MatchPrefix(t1) == Some(h) && h.Len() <= m && SamePrefix(t1, t2, m)
    requires 1 <= n && n == WordRun(t1)
    requires Search(t2[n..]) == Search(t1[n..])
    ensures MatchPrefix(t2) == Some(h)
  {
    MatchEnd(t1, h);
    WordAgree(t1, t2, m, h.Len() - 1);
    assert MatchPrefix(t1) == Prepend(t1[..n], Search(t1[n..]));
    assert MatchPrefix(t2) == Prepend(t2[..n], Search(t2[n..]));
  }

  /** Up to a ')' at `q` inside the common prefix, the first word agrees. */
  lemma WordAgree(t1: string, t2: string, m: nat, q: nat)
    requires q < m && SamePrefix(t1, t2, m) && t1[q] == ')'
    ensures WordRun(t2) == WordRun(t1) && t2[..WordRun(t1)] == t1[..WordRun(t1)]
  {
    SamePrefixShorter(t1, t2, m, q + 1);
    WordRunAgree(t1, t2, q);
    SamePrefixShorter(t1, t2, q + 1, WordRun(t1));
  }

  /** Nothing that starts inside a replacement can be matched. */
  lemma NoMatchInReplacement(h: Hit, i: nat, y: string)
    requires IsChain(h.chain) && IsNumberLiteral(h.num)
    requires i < |h.Replacement()|
    ensures MatchPrefix(h.Replacement()[i..] + y).None?
  {
    var r := h.Replacement();
    var u := r[i..] + y;
    match MatchPrefix(u)
    case Some(g) =>
      MatchSound(u, g);
      HitShape(g);
      ReplacementShape(h);
      ClosedNotInReplacement(g.Text(), |g.chain| + 12, r, |h.chain| + 18, i, y);
    case None =>
  }

  /** A closed word with an opening parenthesis before its end is never a
      prefix of a replacement's suffix: the replacement has a space before
      its number and only number characters between that space and its ')'. */
  lemma ClosedNotInReplacement(w: string, p: nat, r: string, s: nat, i: nat, y: string)
    requires Closed(w) && p < |w| - 1 && w[p] == '('
    requires s < |r| - 1 && r[s] == ' ' && r[|r| - 1] == ')'
    requires forall k :: 0 <= k < s ==> r[k] != ')'
    requires forall k :: s < k < |r| - 1 ==> IsNumChar(r[k])
    requires i < |r|
    ensures !StartsWith(r[i..] + y, w)
  {
    if StartsWith(r[i..] + y, w) {
      var m := |w|;
      var e := |r| - 1;
      AgreeOnOverlap(w, r, i, y);
      // The word's ')' or its '(' lands on a character the replacement
      // cannot have there.
      if i <= s && m - 1 < s - i {
        assert false;
      } else if i <= s {
        ClosedChar(w, s - i);
        assert false;
      } else if m - 1 < e - i {
        assert false;
      } else if m - 1 > e - i {
        ClosedChar(w, e - i);
        assert false;
      } else {
        assert false;
      }
    }
  }

  /** The characters of a closed word, one at a time. */
  lemma ClosedChar(w: string, k: nat)
    requires Closed(w) && k < |w|
    ensures w[k] != ' '
    ensures w[k] == ')' <==> k == |w| - 1
  {
    assert w[k] in w;
    if k < |w| - 1 {
      assert w[..|w| - 1][k] == w[k];
    }
  }

  lemma AgreeOnOverlap(w: string, r: string, i: nat, y: string)
    requires i <= |r| && StartsWith(r[i..] + y, w)
    ensures forall k :: 0 <= k < |w| && i + k < |r| ==> w[k] == r[i + k]
  {
    var u := r[i..] + y;
    assert forall k :: 0 <= k < |w| ==> w[k] == u[k];
  }

  /** A call whose argument is made of digits and dots but is not a number
      literal (`.5`, `1.2.3`) is not matched at all: the lazy chain takes
      `.withOpacity` as one more segment and then meets '('. */
  lemma BadArgumentIsNotMatched(c: string, s: string, y: string)
    requires IsChain(c)
    requires forall i :: 0 <= i < |s| ==> IsNumChar(s[i])
    requires !IsNumberLiteral(s)
    ensures MatchPrefix(c + CallText(s) + y).None?
  {
    var x := CallText(s) + y;
    var t := c + x;
    AppendAssoc(c, CallText(s), y);
    var w := WordRun(c);
    assert x[0] == '.';
    AppendTake(c, x, w);
    WordRunPrefix(c, t);
    AppendDrop(c, x, w);
    BadArgumentTail(s, y);
    SegmentsThenBadCall(c[w..], s, y);
  }

  /** A call whose argument holds a character that is neither a digit nor
      a dot (a sign, a letter, a space), and no ')', is not matched at all:
      the number stops at that character, which does not close the call. */
  lemma NonNumericArgumentIsNotMatched(c: string, s: string, y: string)
    requires IsChain(c)
    requires ')' !in s && exists i :: 0 <= i < |s| && !IsNumChar(s[i])
    ensures MatchPrefix(c + CallText(s) + y).None?
  {
    var x := CallText(s) + y;
    var t := c + x;
    AppendAssoc(c, CallText(s), y);
    var w := WordRun(c);
    assert x[0] == '.';
    AppendTake(c, x, w);
    WordRunPrefix(c, t);
    AppendDrop(c, x, w);
    NonNumericTail(s, y);
    SegmentsThenBadCall(c[w..], s, y);
  }

  /** The tail stops at the first character of the argument that is not
      a digit or a dot; it is not ')', so the tail fails. */
  lemma NonNumericTail(s: string, y: string)
    requires ')' !in s && exists i :: 0 <= i < |s| && !IsNumChar(s[i])
    ensures TailAt(CallText(s) + y).None?
  {
    var v := CallText(s) + y;
    assert v[..13] == OpacityCall;
    var rest := v[13..];
    assert rest == s + (")" + y);
    var j := NumRun(s);
    assert j < |s| by {
      var i :| 0 <= i < |s| && !IsNumChar(s[i]);
      assert j <= i;
    }
    NumRunStopsInside(s, ")" + y);
    assert rest[j] == s[j] && s[j] in s;
  }

  /** A run of digits and dots that stops inside `s` is not lengthened by
      what follows `s`. */
  lemma NumRunStopsInside(s: string, z: string)
    requires NumRun(s) < |s|
    ensures NumRun(s + z) == NumRun(s)
  {
    var j, n := NumRun(s), NumRun(s + z);
    assert (s + z)[j] == s[j];
    assert forall i :: 0 <= i < j ==> (s + z)[i] == s[i];
  }

  lemma SegmentsThenBadCall(e: string, s: string, y: string)
    requires IsSegments(e)
    requires TailAt(CallText(s) + y).None?
    ensures Search(e + (CallText(s) + y)).None?
  {
    CallWordRun(s, y);
    BadCallFails(s, y);
    SegmentsThenNoMatch(e, CallText(s) + y);
  }

  /** Segments in front of a dotted text in which nothing matches start no
      match either. */
  lemma {:induction false} SegmentsThenNoMatch(e: string, x: string)
    requires IsSegments(e) && x != [] && x[0] == '.'
    requires Search(x).None?
    ensures Search(e + x).None?
    decreases |e|
  {
    if e == [] {
      assert e + x == x;
    } else {
      var k := SegmentBeforeDot(e, x);
      SegmentsThenNoMatch(e[k..], x);
    }
  }

  /** At the call itself: the tail rejects the argument, `.withOpacity` is
      read as a segment, and nothing can start at the '(' after it. */
  lemma BadCallFails(s: string, y: string)
    requires TailAt(CallText(s) + y).None?
    ensures Search(CallText(s) + y).None?
  {
    var v := CallText(s) + y;
    CallWordRun(s, y);
    assert v[12..][0] == '(';
    assert Extend(v[12..]).None?;
    assert Search(v[12..]).None?;
    assert Extend(v) == Prepend(v[..12], Search(v[12..]));
  }

  /** After the leading dot of a call, the word `withOpacity` runs up to '('. */
  lemma CallWordRun(s: string, y: string)
    ensures |CallText(s) + y| > 12 && (CallText(s) + y)[12] == '('
    ensures WordRun((CallText(s) + y)[1..]) == 11
  {
    var v := CallText(s) + y;
    assert v[1..] == v[1..12] + v[12..];
    assert v[1..12] == "withOpacity";
    WordRunOn(v[1..12], v[12..]);
    assert v[12] == '(';
  }

  /** The tail itself rejects such an argument. */
  lemma BadArgumentTail(s: string, y: string)
    requires forall i :: 0 <= i < |s| ==> IsNumChar(s[i])
    requires !IsNumberLiteral(s)
    ensures TailAt(CallText(s) + y).None?
  {
    var v := CallText(s) + y;
    assert v[..13] == OpacityCall;
    var rest := v[13..];
    assert rest == s + (")" + y);
    NumRunOfLiteral(s, ")" + y);
    assert rest[..|s|] == s;
  }

  /** `x.withOpacity(.5)`: an argument with a leading dot is not a number,
      so the call is not matched. */
  lemma LeadingDotExample()
    ensures MatchPrefix("x.withOpacity(.5)") == None
  {
    assert IsChain("x") by {
      assert WordRun("x") == 1;
      assert "x"[1..] == [];
    }
    assert !IsNumberLiteral(".5");
    BadArgumentIsNotMatched("x", ".5", []);
    LeadingDotSpelledOut();
  }

  lemma LeadingDotSpelledOut()
    ensures "x" + CallText(".5") + [] == "x.withOpacity(.5)"
  {
  }

  /** `x.withOpacity(-1)`, `x.withOpacity(a)` and `x.withOpacity( 1)`: a
      sign, an identifier and a leading space are not matched. */
  lemma NonNumericArgumentsExample()
    ensures MatchPrefix("x.withOpacity(-1)").None?
    ensures MatchPrefix("x.withOpacity(a)").None?
    ensures MatchPrefix("x.withOpacity( 1)").None?
  {
    SignExample();
    IdentifierExample();
    SpaceExample();
  }

  lemma SignExample()
    ensures MatchPrefix("x.withOpacity(-1)").None?
  {
    NonNumericCall("-1");
    SpelledOut("-1", "x.withOpacity(-1)");
  }

  lemma IdentifierExample()
    ensures MatchPrefix("x.withOpacity(a)").None?
  {
    NonNumericCall("a");
    SpelledOut("a", "x.withOpacity(a)");
  }

  lemma SpaceExample()
    ensures MatchPrefix("x.withOpacity( 1)").None?
  {
    NonNumericCall(" 1");
    SpelledOut(" 1", "x.withOpacity( 1)");
  }

  lemma NonNumericCall(s: string)
    requires |s| >= 1 && !IsNumChar(s[0]) && ')' !in s
    ensures MatchPrefix("x" + CallText(s) + []).None?
  {
    assert IsChain("x") by {
      assert WordRun("x") == 1;
      assert "x"[1..] == [];
    }
    NonNumericArgumentIsNotMatched("x", s, []);
  }

  lemma SpelledOut(s: string, t: string)
    requires t == "x.withOpacity(" + s + ")"
    ensures "x" + CallText(s) + [] == t
  {
  }
}
