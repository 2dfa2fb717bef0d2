/** The one-shot migration that rewrites `R.withOpacity(N)` into
    `R.withValues(alpha: N)` in every `.dart` file of a directory tree.

    The substitution is Python's `re.sub` with the pattern
    `(\w+(?:\.\w+)*?)\.withOpacity\((\d+\.?\d*)\)` and the replacement
    `\1.withValues(alpha: \2)`, hand-coded here as a matcher that is tried at
    every position from left to right; after a match the scan resumes behind
    it, so matches never overlap. */
module DeprecatedApi {
  import opened Common
  import opened OpacityPattern
  import opened OpacityMatching

  /** One turn of the scan loop: writing what the step emits and skipping
      what it consumes keeps `out + Rewrite(rest)` equal to the whole rewrite. */
  lemma ScanAdvances(whole: string, out: string, rest: string, emitted: string, consumed: nat)
    requires rest != [] && out + Rewrite(rest) == whole
    requires emitted == Step(rest).0 && consumed == Step(rest).1
    ensures consumed <= |rest|
    ensures (out + emitted) + Rewrite(rest[consumed..]) == whole
  {
    AppendAssoc(out, emitted, Rewrite(rest[consumed..]));
  }

  /** The Python helper's core: the rewritten text and whether it differs
      from the original (the helper's return value when the write succeeds). */
  method ReplaceWithOpacity(content: string) returns (updated: string, changed: bool)
    ensures updated == Rewrite(content)
    ensures changed <==> updated != content
    ensures !changed <==> NoMatchAnywhere(content)
  {
    updated := RewriteText(content);
    changed := updated != content;
    UnchangedIffNoMatch(content);
  }

  /** `re.sub` as the scan loop that computes it: at each position either
      the pattern matches and its replacement is written, or one character
      is copied. */
  method RewriteText(content: string) returns (out: string)
    ensures out == Rewrite(content)
  {
    out := "";
    var rest := content;
    while rest != []
      invariant out + Rewrite(rest) == Rewrite(content)
      decreases |rest|
    {
      var emitted, consumed := Step(rest).0, Step(rest).1;
      ScanAdvances(Rewrite(content), out, rest, emitted, consumed);
      out := out + emitted;
      rest := rest[consumed..];
    }
    assert out + [] == out;
  }

  /** The rewrite turns a deprecated call into the modern one, keeping the
      chain and the number verbatim. */
  lemma CallIsRewritten(c: string, n: string)
    requires IsChain(c) && IsNumberLiteral(n)
    ensures Rewrite(c + CallText(n)) == c + ValuesText(n)
  {
    var t := c + CallText(n);
    CallIsMatched(c, n, []);
    assert t + [] == t;
    RewriteHit(t, Hit(c, n));
    assert t[Hit(c, n).Len()..] == [];
  }

  // ---------------------------------------------------------------------
  // Concrete cases of the grammar

  lemma ColorsRedExample()
    ensures Rewrite("Colors.red.withOpacity(0.5)") == "Colors.red.withValues(alpha: 0.5)"
  {
    ColorsRedIsChain();
    assert IsNumberLiteral("0.5") by {
      assert DigitRun("0.5") == 1;
      assert "0.5"[2..] == "5";
    }
    CallIsRewritten("Colors.red", "0.5");
    ColorsRedSpelledOut();
  }

  lemma ColorsRedIsChain()
    ensures IsChain("Colors.red")
  {
    ColorsRun();
    RedIsSegments();
    assert "Colors.red"[6..] == ".red";
  }

  lemma ColorsRun()
    ensures WordRun("Colors.red") == 6
  {
    WordRunOn("Colors", ".red");
    assert "Colors" + ".red" == "Colors.red";
  }

  lemma RedIsSegments()
    ensures IsSegments(".red")
  {
    WordRunOn("red", "");
    assert "red" + "" == "red";
    assert ".red"[1..] == "red";
    assert ".red"[4..] == [];
  }

  lemma ColorsRedSpelledOut()
    ensures "Colors.red" + CallText("0.5") == "Colors.red.withOpacity(0.5)"
    ensures "Colors.red" + ValuesText("0.5") == "Colors.red.withValues(alpha: 0.5)"
  {
    ColorsRedCallSpelledOut();
    ColorsRedValuesSpelledOut();
  }

  lemma ColorsRedCallSpelledOut()
    ensures "Colors.red" + CallText("0.5") == "Colors.red.withOpacity(0.5)"
  {
  }

  lemma ColorsRedValuesSpelledOut()
    ensures "Colors.red" + ValuesText("0.5") == "Colors.red.withValues(alpha: 0.5)"
  {
  }

  lemma IntegerLiteralExample()
    ensures Rewrite("x.withOpacity(1)") == "x.withValues(alpha: 1)"
  {
    XIsChain();
    assert IsNumberLiteral("1") by { assert DigitRun("1") == 1; }
    CallIsRewritten("x", "1");
    IntegerLiteralSpelledOut();
  }

  lemma XIsChain()
    ensures IsChain("x")
  {
    assert WordRun("x") == 1;
    assert "x"[1..] == [];
  }

  lemma IntegerLiteralSpelledOut()
    ensures "x" + CallText("1") == "x.withOpacity(1)"
    ensures "x" + ValuesText("1") == "x.withValues(alpha: 1)"
  {
  }

  lemma TrailingDotExample()
    ensures Rewrite("x.withOpacity(0.)") == "x.withValues(alpha: 0.)"
  {
    XIsChain();
    assert IsNumberLiteral("0.") by {
      assert DigitRun("0.") == 1;
      assert "0."[2..] == [];
    }
    CallIsRewritten("x", "0.");
    TrailingDotSpelledOut();
  }

  lemma TrailingDotSpelledOut()
    ensures "x" + CallText("0.") == "x.withOpacity(0.)"
    ensures "x" + ValuesText("0.") == "x.withValues(alpha: 0.)"
  {
  }

  // ---------------------------------------------------------------------
  // No-op and idempotence

  /** No position of `t` starts a match. */
  predicate NoMatchAnywhere(t: string) {
    forall i :: 0 <= i <= |t| ==> MatchPrefix(t[i..]).None?
  }

  /** Text with nothing to match comes back unchanged. */
  lemma {:induction false} NoMatchIsUnchanged(t: string)
    requires NoMatchAnywhere(t)
    ensures Rewrite(t) == t
    decreases |t|
  {
    if t != [] {
      assert t[0..] == t;
      assert NoMatchAnywhere(t[1..]) by {
        forall i | 0 <= i <= |t[1..]|
          ensures MatchPrefix(t[1..][i..]).None?
        {
          assert t[1..][i..] == t[1 + i..];
        }
      }
      NoMatchIsUnchanged(t[1..]);
    }
  }

  /** A match anywhere in the text makes the rewrite differ from it. */
  lemma {:induction false} MatchChangesText(t: string, i: nat)
    requires i <= |t| && MatchPrefix(t[i..]).Some?
    ensures Rewrite(t) != t
    decreases |t|
  {
    assert t != [];
    match MatchPrefix(t)
    case Some(h) =>
      MatchedStepChanges(t, h);
    case None =>
      RewriteMiss(t);
      assert i >= 1 by { assert t[0..] == t; }
      assert t[1..][i - 1..] == t[i..];
      MatchChangesText(t[1..], i - 1);
  }

  /** Where a match starts, the output has the 'V' of `withValues` in place
      of the 'O' of `withOpacity`. */
  lemma MatchedStepChanges(t: string, h: Hit)
    requires MatchPrefix(t) == Some(h)
    ensures Rewrite(t) != t
  {
    MatchSound(t, h);
    RewriteHit(t, h);
    TextAndReplacementDiffer(h);
    var k := |h.chain| + 5;
    assert t[..h.Len()][k] == t[k];
    assert Rewrite(t)[k] == h.Replacement()[k];
  }

  lemma TextAndReplacementDiffer(h: Hit)
    ensures |h.chain| + 5 < |h.Text()| && |h.chain| + 5 < |h.Replacement()|
    ensures h.Text()[|h.chain| + 5] == 'O' && h.Replacement()[|h.chain| + 5] == 'V'
  {
    assert OpacityCall[5] == 'O' && ValuesCall[5] == 'V';
    assert CallText(h.num)[5] == OpacityCall[5];
    assert ValuesText(h.num)[5] == ValuesCall[5];
  }

  /** The rewrite leaves a text unchanged exactly when no position of it
      starts a match: the file is written back iff there was a match. */
  lemma UnchangedIffNoMatch(t: string)
    ensures Rewrite(t) == t <==> NoMatchAnywhere(t)
  {
    if NoMatchAnywhere(t) {
      NoMatchIsUnchanged(t);
    } else {
      var i :| 0 <= i <= |t| && MatchPrefix(t[i..]).Some?;
      MatchChangesText(t, i);
    }
  }

  /** A Closed prefix of the output was copied from the input: it cannot
      reach into a replacement, which has a space before its only ')'. */
  lemma {:induction false} ClosedPrefixIsCopied(t: string, n: nat)
    requires 1 <= n <= |Rewrite(t)| && Closed(Rewrite(t)[..n])
    ensures n <= |t| && Rewrite(t)[..n] == t[..n]
    decreases |t|
  {
    match MatchPrefix(t)
    case Some(h) =>
      MatchSound(t, h);
      RewriteHit(t, h);
      ReplacementStartNotClosed(h, Rewrite(t[h.Len()..]), n);
    case None =>
      RewriteMiss(t);
      var rest := Rewrite(t[1..]);
      ConsTake(t[0], rest, n);
      if n > 1 {
        ClosedDropFirst(Rewrite(t)[..n]);
        ClosedPrefixIsCopied(t[1..], n - 1);
      }
      ConsTake(t[0], t[1..], n);
      assert [t[0]] + t[1..] == t;
  }

  /** No prefix of a replacement followed by anything is Closed. */
  lemma ReplacementStartNotClosed(h: Hit, y: string, n: nat)
    requires IsChain(h.chain) && IsNumberLiteral(h.num)
    requires 1 <= n <= |h.Replacement() + y|
    ensures !Closed((h.Replacement() + y)[..n])
  {
    var r := h.Replacement();
    var w := (r + y)[..n];
    var s := |h.chain| + 18;
    ReplacementShape(h);
    if n - 1 < s {
      assert w[n - 1] == r[n - 1];
    } else {
      assert w[s] == r[s];
      assert w[s] in w;
    }
  }

  lemma ClosedDropFirst(x: string)
    requires Closed(x) && |x| >= 2
    ensures Closed(x[1..])
  {
    var y := x[1..];
    assert y[..|y| - 1] == x[..|x| - 1][1..];
  }

  /** The output of the rewrite has no match anywhere. */
  lemma {:induction false} RewriteLeavesNoMatch(t: string)
    ensures NoMatchAnywhere(Rewrite(t))
    decreases |t|
  {
    if t == [] {
      assert Rewrite(t)[0..] == [];
    } else {
      match MatchPrefix(t)
      case Some(h) =>
        MatchSound(t, h);
        RewriteHit(t, h);
        RewriteLeavesNoMatch(t[h.Len()..]);
        NoMatchAfterReplacement(h, Rewrite(t[h.Len()..]));
      case None =>
        RewriteMiss(t);
        RewriteLeavesNoMatch(t[1..]);
        CopiedHeadNotMatched(t);
        NoMatchAfterCopy(t[0], Rewrite(t[1..]));
    }
  }

  lemma NoMatchAfterReplacement(h: Hit, rest: string)
    requires IsChain(h.chain) && IsNumberLiteral(h.num)
    requires NoMatchAnywhere(rest)
    ensures NoMatchAnywhere(h.Replacement() + rest)
  {
    var r := h.Replacement();
    forall i | 0 <= i <= |r + rest|
      ensures MatchPrefix((r + rest)[i..]).None?
    {
      if i < |r| {
        AppendDrop(r, rest, i);
        NoMatchInReplacement(h, i, rest);
      } else {
        AppendDropRight(r, rest, i);
      }
    }
  }

  lemma NoMatchAfterCopy(c: char, rest: string)
    requires MatchPrefix([c] + rest).None?
    requires NoMatchAnywhere(rest)
    ensures NoMatchAnywhere([c] + rest)
  {
    forall i | 0 <= i <= |[c] + rest|
      ensures MatchPrefix(([c] + rest)[i..]).None?
    {
      if i == 0 {
        assert ([c] + rest)[0..] == [c] + rest;
      } else {
        AppendDropRight([c], rest, i);
      }
    }
  }

  /** Where the scan copies a character, the output does not start a match
      either: a match there would be a Closed prefix copied from the input,
      and the input would have matched at the same place. */
  lemma CopiedHeadNotMatched(t: string)
    requires t != [] && MatchPrefix(t).None?
    ensures MatchPrefix(Rewrite(t)).None?
  {
    var out := Rewrite(t);
    match MatchPrefix(out)
    case Some(g) =>
      var m := g.Len();
      MatchSound(out, g);
      HitShape(g);
      ClosedPrefixIsCopied(t, m);
      MatchAgree(out, t, m, g);
    case None =>
  }

  /** Running the migration twice changes nothing the second time. */
  lemma RewriteIdempotent(t: string)
    ensures Rewrite(Rewrite(t)) == Rewrite(t)
  {
    RewriteLeavesNoMatch(t);
    NoMatchIsUnchanged(Rewrite(t));
  }

  // ---------------------------------------------------------------------
  // Reading and writing in text mode

  /** No carriage return in the text. */
  predicate NoReturn(s: string) {
    forall i :: 0 <= i < |s| ==> s[i] != '\r'
  }

  /** `open(path, 'r')` reads with universal newlines: `\r\n` and a lone
      `\r` both read as `\n`. */
  function ReadNewlines(raw: string): (t: string)
    ensures NoReturn(t)
    ensures |t| <= |raw|
    decreases |raw|
  {
    if raw == [] then []
    else if raw[0] == '\r' then
      if |raw| >= 2 && raw[1] == '\n' then "\n" + ReadNewlines(raw[2..]) else "\n" + ReadNewlines(raw[1..])
    else [raw[0]] + ReadNewlines(raw[1..])
  }

  /** Text without a carriage return reads as it is, so reading is
      idempotent. */
  lemma {:induction false} PlainTextReadsAsIs(t: string)
    requires NoReturn(t)
    ensures ReadNewlines(t) == t
    decreases |t|
  {
    if t != [] {
      assert NoReturn(t[1..]) by {
        forall i | 0 <= i < |t[1..]|
          ensures t[1..][i] != '\r'
        {
          assert t[1..][i] == t[i + 1];
        }
      }
      PlainTextReadsAsIs(t[1..]);
    }
  }

  /** A Windows line end reads as a Unix one. */
  lemma CrlfReadsAsLf(a: string, b: string)
    requires NoReturn(a)
    ensures ReadNewlines(a + "\r\n" + b) == a + "\n" + ReadNewlines(b)
    decreases |a|
  {
    if a == [] {
      assert a + "\r\n" + b == "\r\n" + b;
      assert ("\r\n" + b)[2..] == b;
    } else {
      assert (a + "\r\n" + b)[1..] == a[1..] + "\r\n" + b;
      assert NoReturn(a[1..]) by {
        forall i | 0 <= i < |a[1..]|
          ensures a[1..][i] != '\r'
        {
          assert a[1..][i] == a[i + 1];
        }
      }
      CrlfReadsAsLf(a[1..], b);
      assert a == [a[0]] + a[1..];
    }
  }

  lemma NoReturnAppend(a: string, b: string)
    ensures NoReturn(a + b) <==> NoReturn(a) && NoReturn(b)
  {
    if NoReturn(a) && NoReturn(b) {
      forall i | 0 <= i < |a + b|
        ensures (a + b)[i] != '\r'
      {
        if i >= |a| {
          assert (a + b)[i] == b[i - |a|];
        }
      }
    }
    if NoReturn(a + b) {
      forall i | 0 <= i < |a|
        ensures a[i] != '\r'
      {
        assert (a + b)[i] == a[i];
      }
      forall i | 0 <= i < |b|
        ensures b[i] != '\r'
      {
        assert (a + b)[|a| + i] == b[i];
      }
    }
  }

  /** The replacement of a match in text without carriage returns has none
      either: its chain and number are copied from the text. */
  lemma ReplacementNoReturn(t: string, h: Hit)
    requires MatchPrefix(t) == Some(h) && NoReturn(t)
    ensures NoReturn(h.Replacement())
  {
    HitPartsNoReturn(t, h);
    ValuesTextNoReturn(h.num);
    NoReturnAppend(h.chain, ValuesText(h.num));
  }

  lemma HitPartsNoReturn(t: string, h: Hit)
    requires MatchPrefix(t) == Some(h) && NoReturn(t)
    ensures NoReturn(h.chain) && NoReturn(h.num)
  {
    MatchSound(t, h);
    var u := t[..h.Len()];
    assert NoReturn(u) by {
      forall i | 0 <= i < |u|
        ensures u[i] != '\r'
      {
        assert u[i] == t[i];
      }
    }
    assert u == h.chain + CallText(h.num);
    NoReturnAppend(h.chain, CallText(h.num));
    NoReturnAppend(OpacityCall + h.num, ")");
    NoReturnAppend(OpacityCall, h.num);
  }

  lemma ValuesTextNoReturn(num: string)
    requires NoReturn(num)
    ensures NoReturn(ValuesText(num))
  {
    assert NoReturn(ValuesCall);
    NoReturnAppend(ValuesCall, num);
    NoReturnAppend(ValuesCall + num, ")");
  }

  /** The rewrite adds no carriage return. */
  lemma {:induction false} RewriteNoReturn(t: string)
    requires NoReturn(t)
    ensures NoReturn(Rewrite(t))
    decreases |t|
  {
    if t != [] {
      assert t[1..] == t[1..];
      match MatchPrefix(t)
      case Some(h) =>
        MatchSound(t, h);
        RewriteHit(t, h);
        ReplacementNoReturn(t, h);
        SuffixNoReturn(t, h.Len());
        RewriteNoReturn(t[h.Len()..]);
        NoReturnAppend(h.Replacement(), Rewrite(t[h.Len()..]));
      case None =>
        RewriteMiss(t);
        SuffixNoReturn(t, 1);
        RewriteNoReturn(t[1..]);
        NoReturnAppend([t[0]], Rewrite(t[1..]));
    }
  }

  lemma SuffixNoReturn(t: string, k: nat)
    requires NoReturn(t) && k <= |t|
    ensures NoReturn(t[k..])
  {
    forall i | 0 <= i < |t[k..]|
      ensures t[k..][i] != '\r'
    {
      assert t[k..][i] == t[k + i];
    }
  }

  /** A prefix of text in which nothing matches holds no match either: a
      match depends only on the text it covers. */
  lemma PrefixNoMatch(t: string, k: nat)
    requires NoMatchAnywhere(t) && k <= |t|
    ensures NoMatchAnywhere(t[..k])
  {
    forall i | 0 <= i <= k
      ensures MatchPrefix(t[..k][i..]).None?
    {
      if MatchPrefix(t[..k][i..]).Some? {
        var h := MatchPrefix(t[..k][i..]).value;
        MatchSound(t[..k][i..], h);
        assert SamePrefix(t[..k][i..], t[i..], h.Len()) by {
          forall j | 0 <= j < h.Len()
            ensures t[..k][i..][j] == t[i..][j]
          {
            assert t[..k][i..][j] == t[i + j];
          }
        }
        MatchAgree(t[..k][i..], t[i..], h.Len(), h);
        assert false;
      }
    }
  }

  // ---------------------------------------------------------------------
  // The directory walk

  /** How writing a file back goes: the write succeeds; `open(path, 'w')`
      fails and the file is untouched; or the write fails after the open has
      already emptied the file, which keeps the first `kept` characters. */
  datatype WriteOutcome = Written | OpenFails | FailsAfterOpen(kept: nat)

  /** One file met by the walk. `content` is None when reading it fails. */
  datatype SourceFile = SourceFile(name: string, content: Option<string>, write: WriteOutcome)

  predicate IsDart(f: SourceFile) {
    EndsWith(f.name, ".dart")
  }

  /** `replace_with_opacity` on one file: the file afterwards and the
      function's return value. The text is compared and rewritten as read,
      with universal newlines, and written back with `\n` line ends. Any
      failure counts as "not modified". */
  function ReplaceInFile(f: SourceFile): (r: (SourceFile, bool))
    ensures r.0.name == f.name && r.0.write == f.write
    ensures r.1 ==> f.content.Some? && r.0.content == Some(Rewrite(ReadNewlines(f.content.value)))
    ensures r.1 ==> NoReturn(r.0.content.value) && r.0 != f
    ensures !r.1 && r.0 != f ==>
              f.write.FailsAfterOpen? && f.content.Some? && r.0.content.Some?
              && r.0.content.value <= Rewrite(ReadNewlines(f.content.value))
    ensures f.write.OpenFails? || f.content.None? ==> r == (f, false)
  {
    match f.content
    case None => (f, false)
    case Some(raw) =>
      var text := ReadNewlines(raw);
      var updated := Rewrite(text);
      if updated == text then (f, false)
      else match f.write
        case Written =>
          RewriteNoReturn(text);
          NewTextDiffers(raw, updated);
          (f.(content := Some(updated)), true)
        case OpenFails => (f, false)
        case FailsAfterOpen(k) => (f.(content := Some(Take(updated, k))), false)
  }

  /** Text without carriage returns that differs from what was read
      differs from the file as it was. */
  lemma NewTextDiffers(raw: string, u: string)
    requires NoReturn(u) && u != ReadNewlines(raw)
    ensures Some(u) != Some(raw)
  {
    if u == raw {
      PlainTextReadsAsIs(raw);
    }
  }

  /** A file is reported as modified exactly when it could be read and
      written and its text, as read, held a match. */
  lemma ModifiedIffMatch(f: SourceFile)
    ensures ReplaceInFile(f).1 <==> f.content.Some? && f.write.Written? && !NoMatchAnywhere(ReadNewlines(f.content.value))
  {
    if f.content.Some? {
      UnchangedIffNoMatch(ReadNewlines(f.content.value));
    }
  }

  /** A file with Windows line ends that is rewritten comes back with Unix
      ones, also on the lines without a match. */
  lemma CrlfFileComesBackLf(f: SourceFile, a: string, b: string)
    requires NoReturn(a) && f.content == Some(a + "\r\n" + b)
    requires ReplaceInFile(f).1
    ensures ReplaceInFile(f).0.content == Some(Rewrite(a + "\n" + ReadNewlines(b)))
    ensures ReplaceInFile(f).0.content != f.content
  {
    CrlfReadsAsLf(a, b);
    var raw := a + "\r\n" + b;
    assert raw[|a|] == '\r';
  }

  /** Running the file step on its own output changes nothing: a written
      file holds text that reads as itself and has no match left, and what
      a failed write keeps is a prefix of such text. */
  lemma ReplaceInFileTwice(f: SourceFile)
    ensures ReplaceInFile(ReplaceInFile(f).0) == (ReplaceInFile(f).0, false)
  {
    var g := ReplaceInFile(f).0;
    if g != f {
      var text := ReadNewlines(f.content.value);
      var u := Rewrite(text);
      RewriteNoReturn(text);
      RewriteLeavesNoMatch(text);
      assert u != text && !f.write.OpenFails?;
      var c := g.content.value;
      var k := if f.write.Written? then |u| else if f.write.kept < |u| then f.write.kept else |u|;
      assert c == u[..k];
      PrefixNoMatch(u, k);
      SuffixNoReturnPrefix(u, k);
      PlainTextReadsAsIs(c);
      NoMatchIsUnchanged(c);
    }
  }

  lemma SuffixNoReturnPrefix(t: string, k: nat)
    requires NoReturn(t) && k <= |t|
    ensures NoReturn(t[..k])
  {
    forall i | 0 <= i < k
      ensures t[..k][i] != '\r'
    {
      assert t[..k][i] == t[i];
    }
  }

  predicate ModifiedDart(f: SourceFile) {
    IsDart(f) && ReplaceInFile(f).1
  }

  /** `process_directory` over the files the walk yields, in that order:
      the files afterwards and the number reported as modified. */
  function ProcessFiles(files: seq<SourceFile>): (r: (seq<SourceFile>, nat))
    ensures |r.0| == |files|
    ensures forall i :: 0 <= i < |files| ==> r.0[i] == if IsDart(files[i]) then ReplaceInFile(files[i]).0 else files[i]
    ensures r.1 == Count(files, ModifiedDart)
  {
    if files == [] then ([], 0)
    else
      var rest := ProcessFiles(files[1..]);
      if IsDart(files[0]) then
        var done := ReplaceInFile(files[0]);
        ([done.0] + rest.0, rest.1 + if done.1 then 1 else 0)
      else ([files[0]] + rest.0, rest.1)
  }

  /** What the walk does to the directory: a non-Dart file is never touched,
      a file that changed is a Dart file whose text was rewritten or whose
      write failed part way, and the count is at most the number of Dart
      files. */
  lemma ProcessFilesEffect(files: seq<SourceFile>)
    ensures forall i :: 0 <= i < |files| ==> ProcessFiles(files).0[i].name == files[i].name
    ensures forall i :: 0 <= i < |files| && !IsDart(files[i]) ==> ProcessFiles(files).0[i] == files[i]
    ensures forall i :: 0 <= i < |files| && ProcessFiles(files).0[i] != files[i] ==>
              IsDart(files[i]) && files[i].content.Some? && ProcessFiles(files).0[i].content.Some?
              && ProcessFiles(files).0[i].content.value <= Rewrite(ReadNewlines(files[i].content.value))
    ensures ProcessFiles(files).1 <= Count(files, IsDart)
  {
    CountMonotone(files, ModifiedDart, IsDart);
  }

  /** A second run over the output modifies no file. */
  lemma SecondRunModifiesNothing(files: seq<SourceFile>)
    ensures ProcessFiles(ProcessFiles(files).0).1 == 0
    ensures ProcessFiles(ProcessFiles(files).0).0 == ProcessFiles(files).0
  {
    var out := ProcessFiles(files).0;
    forall i | 0 <= i < |files|
      ensures ProcessFiles(out).0[i] == out[i] && !ModifiedDart(out[i])
    {
      ReplaceInFileTwice(files[i]);
    }
    CountZero(out, ModifiedDart);
  }
}
