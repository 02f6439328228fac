/**
 * String handling used by the sticker-pack routes: JavaScript's `trim()`
 * followed by `replace(/\s+/g, ' ')`, the two regular expressions the routes
 * test names and keys against, and the `toLowerCase().replace(/(:|-)/g, '')`
 * rewrite of a sticker name.
 *
 * A JavaScript string is modelled as the sequence of its characters
 * (Unicode scalar values). Every character these operations inspect is a
 * single UTF-16 code unit; `.length` and Mongoose's `maxlength` count code
 * units, which `JsLength` computes.
 */
module Text {

  /** The characters ECMAScript's `\s` and `String.prototype.trim` treat as
      white space: WhiteSpace plus LineTerminator (section 22.1.3.32 and
      section 12.2 of ECMA-262). */
  predicate IsSpace(c: char) {
    || c == ' ' || c == '\t' || c == '\n' || c == '\U{B}' || c == '\U{C}' || c == '\r'
    || c == '\U{A0}' || c == '\U{1680}' || ('\U{2000}' <= c <= '\U{200A}')
    || c == '\U{2028}' || c == '\U{2029}' || c == '\U{202F}' || c == '\U{205F}'
    || c == '\U{3000}' || c == '\U{FEFF}'
  }

  predicate AllSpace(s: string) {
    forall i :: 0 <= i < |s| ==> IsSpace(s[i])
  }

  predicate NoSpace(s: string) {
    forall i :: 0 <= i < |s| ==> !IsSpace(s[i])
  }

  /* ---------------------------------------------------------------------- */
  /* trim() and replace(/\s+/g, ' ')                                        */
  /* ---------------------------------------------------------------------- */

  /** Drops the leading white space of `s`. */
  function TrimStart(s: string): (r: string)
    ensures |r| <= |s|
    ensures r == [] || !IsSpace(r[0])
    decreases |s|
  {
    if |s| > 0 && IsSpace(s[0]) then TrimStart(s[1..]) else s
  }

  /** Drops the trailing white space of `s`. */
  function TrimEnd(s: string): (r: string)
    ensures |r| <= |s|
    ensures r == [] || !IsSpace(r[|r| - 1])
    decreases |s|
  {
    if |s| > 0 && IsSpace(s[|s| - 1]) then TrimEnd(s[..|s| - 1]) else s
  }

  /** JavaScript's `s.trim()`. */
  function Trim(s: string): string {
    TrimEnd(TrimStart(s))
  }

  /** JavaScript's `s.replace(/\s+/g, ' ')`: every maximal run of white space
      becomes one ordinary space. */
  function CollapseRuns(s: string): (r: string)
    decreases |s|
  {
    if |s| == 0 then []
    else if IsSpace(s[0]) then [' '] + CollapseRuns(TrimStart(s[1..]))
    else [s[0]] + CollapseRuns(s[1..])
  }

  /** The normalisation the pack routes apply to every free-text field:
      `s.trim().replace(/\s+/g, ' ')`. */
  function Normalize(s: string): string {
    CollapseRuns(Trim(s))
  }

  /** Shape of a normalised string: the only white space is an ordinary space
      that sits strictly inside the string and is followed by a non-space. */
  predicate Normalized(r: string) {
    forall i :: 0 <= i < |r| && IsSpace(r[i]) ==>
      r[i] == ' ' && 0 < i && i + 1 < |r| && !IsSpace(r[i + 1])
  }

  /* ---------------------------------------------------------------------- */
  /* An independent reference: the words of a string, joined by one space   */
  /* ---------------------------------------------------------------------- */

  /** The longest prefix of `s` that holds no white space. */
  function TakeWord(s: string): (w: string)
    ensures |w| <= |s|
    ensures NoSpace(w)
    decreases |s|
  {
    if |s| > 0 && !IsSpace(s[0]) then [s[0]] + TakeWord(s[1..]) else []
  }

  /** The white-space separated words of `s`, in order; none is empty. */
  function Words(s: string): (ws: seq<string>)
    ensures forall i :: 0 <= i < |ws| ==> |ws[i]| > 0 && NoSpace(ws[i])
    decreases |s|
  {
    var t := TrimStart(s);
    if t == [] then []
    else
      var w := TakeWord(t);
      [w] + Words(t[|w|..])
  }

  /** The words joined by single spaces. */
  function Join(ws: seq<string>): string
    decreases |ws|
  {
    if |ws| == 0 then []
    else if |ws| == 1 then ws[0]
    else ws[0] + [' '] + Join(ws[1..])
  }

  /* ---------------------------------------------------------------------- */
  /* Lemmas                                                                 */
  /* ---------------------------------------------------------------------- */

  lemma TrimStartOfNonSpaceStart(s: string)
    requires s == [] || !IsSpace(s[0])
    ensures TrimStart(s) == s
  {
  }

  /** `TrimStart` removes a white-space prefix and keeps the rest. */
  lemma {:induction false} TrimStartIsSuffix(s: string)
    ensures var r := TrimStart(s);
      r == s[|s| - |r|..] && AllSpace(s[..|s| - |r|])
    decreases |s|
  {
    if |s| > 0 && IsSpace(s[0]) {
      TrimStartIsSuffix(s[1..]);
      var r := TrimStart(s);
      assert s[1..][|s| - 1 - |r|..] == s[|s| - |r|..];
      var pre := s[..|s| - |r|];
      var pre' := s[1..][..|s| - 1 - |r|];
      forall i | 0 <= i < |pre|
        ensures IsSpace(pre[i])
      {
        if i > 0 {
          assert pre[i] == pre'[i - 1];
        }
      }
    }
  }

  /** `TrimEnd` removes a white-space suffix and keeps the rest. */
  lemma {:induction false} TrimEndIsPrefix(s: string)
    ensures var r := TrimEnd(s);
      r == s[..|r|] && AllSpace(s[|r|..])
    decreases |s|
  {
    if |s| > 0 && IsSpace(s[|s| - 1]) {
      var s' := s[..|s| - 1];
      TrimEndIsPrefix(s');
      var r := TrimEnd(s);
      assert s'[..|r|] == s[..|r|];
      var post := s[|r|..];
      var post' := s'[|r|..];
      forall i | 0 <= i < |post|
        ensures IsSpace(post[i])
      {
        if i < |post'| {
          assert post[i] == post'[i];
        }
      }
    }
  }

  /** `TakeWord` is a prefix, and it stops at white space or at the end. */
  lemma {:induction false} TakeWordIsPrefix(s: string)
    ensures var w := TakeWord(s);
      w == s[..|w|] && (|w| == |s| || IsSpace(s[|w|]))
    decreases |s|
  {
    if |s| > 0 && !IsSpace(s[0]) {
      TakeWordIsPrefix(s[1..]);
    }
  }

  /** `trim()` leaves no white space at either end. */
  lemma TrimHasNoEdgeSpace(s: string)
    ensures var r := Trim(s);
      r == [] || (!IsSpace(r[0]) && !IsSpace(r[|r| - 1]))
  {
    TrimEndIsPrefix(TrimStart(s));
  }

  /** Leading spaces make no difference to `TrimStart`. */
  lemma {:induction false} TrimStartAfterSpaces(sp: string, t: string)
    requires AllSpace(sp)
    ensures TrimStart(sp + t) == TrimStart(t)
    decreases |sp|
  {
    if sp != [] {
      assert (sp + t)[0] == sp[0];
      assert (sp + t)[1..] == sp[1..] + t;
      TrimStartAfterSpaces(sp[1..], t);
    } else {
      assert sp + t == t;
    }
  }

  /** `TrimEnd` only ever looks at the white-space tail. */
  lemma {:induction false} TrimEndOfConcat(a: string, b: string)
    requires !AllSpace(b)
    ensures TrimEnd(a + b) == a + TrimEnd(b)
    decreases |b|
  {
    var ab := a + b;
    assert ab[|ab| - 1] == b[|b| - 1];
    if IsSpace(b[|b| - 1]) {
      assert ab[..|ab| - 1] == a + b[..|b| - 1];
      assert !AllSpace(b[..|b| - 1]) by {
        var k :| 0 <= k < |b| && !IsSpace(b[k]);
        assert k < |b| - 1;
        assert b[..|b| - 1][k] == b[k];
      }
      TrimEndOfConcat(a, b[..|b| - 1]);
    }
  }

  lemma {:induction false} TrimEndOfWordThenSpaces(w: string, sp: string)
    requires w == [] || !IsSpace(w[|w| - 1])
    requires AllSpace(sp)
    ensures TrimEnd(w + sp) == w
    decreases |sp|
  {
    var ws := w + sp;
    if sp != [] {
      assert ws[..|ws| - 1] == w + sp[..|sp| - 1];
      TrimEndOfWordThenSpaces(w, sp[..|sp| - 1]);
    } else {
      assert ws == w;
    }
  }

  /** A word without white space passes through `CollapseRuns` untouched. */
  lemma {:induction false} CollapseAfterWord(w: string, x: string)
    requires NoSpace(w)
    ensures CollapseRuns(w + x) == w + CollapseRuns(x)
    decreases |w|
  {
    if w != [] {
      assert (w + x)[0] == w[0];
      assert (w + x)[1..] == w[1..] + x;
      CollapseAfterWord(w[1..], x);
      assert [w[0]] + w[1..] == w;
    } else {
      assert w + x == x;
    }
  }

  /** A non-empty run of white space before a word collapses to one space. */
  lemma CollapseSpaceRun(sp: string, t: string)
    requires |sp| > 0 && AllSpace(sp)
    requires t == [] || !IsSpace(t[0])
    ensures CollapseRuns(sp + t) == [' '] + CollapseRuns(t)
  {
    var st := sp + t;
    assert st[0] == sp[0];
    assert st[1..] == sp[1..] + t;
    TrimStartAfterSpaces(sp[1..], t);
    TrimStartOfNonSpaceStart(t);
  }

  lemma CollapseOfWord(w: string)
    requires NoSpace(w)
    ensures CollapseRuns(w) == w
  {
    CollapseAfterWord(w, []);
    assert w + [] == w;
  }

  /** Shape of `CollapseRuns` on a string that does not end in white space. */
  lemma {:induction false} CollapseShape(t: string)
    requires t == [] || !IsSpace(t[|t| - 1])
    ensures var r := CollapseRuns(t);
      && (|r| == 0 <==> |t| == 0)
      && (|t| > 0 ==> (IsSpace(r[0]) <==> IsSpace(t[0])))
      && forall i :: 0 <= i < |r| && IsSpace(r[i]) ==>
           r[i] == ' ' && i + 1 < |r| && !IsSpace(r[i + 1])
    decreases |t|
  {
    if |t| > 0 {
      var r := CollapseRuns(t);
      if IsSpace(t[0]) {
        var u := TrimStart(t[1..]);
        TrimStartIsSuffix(t[1..]);
        assert u != [] by {
          assert t[|t| - 1] == t[1..][|t| - 2];
        }
        assert u[|u| - 1] == t[|t| - 1];
        CollapseShape(u);
        var cu := CollapseRuns(u);
        assert r == [' '] + cu;
        forall i | 0 <= i < |r| && IsSpace(r[i])
          ensures r[i] == ' ' && i + 1 < |r| && !IsSpace(r[i + 1])
        {
          if i > 0 {
            assert r[i] == cu[i - 1];
          }
        }
      } else {
        var tail := t[1..];
        assert tail == [] || tail[|tail| - 1] == t[|t| - 1];
        CollapseShape(tail);
        var ct := CollapseRuns(tail);
        assert r == [t[0]] + ct;
        forall i | 0 <= i < |r| && IsSpace(r[i])
          ensures r[i] == ' ' && i + 1 < |r| && !IsSpace(r[i + 1])
        {
          assert i > 0;
          assert r[i] == ct[i - 1];
        }
      }
    }
  }

  /** The normalisation produces a normalised string. */
  lemma NormalizeIsNormalized(s: string)
    ensures Normalized(Normalize(s))
  {
    var t := Trim(s);
    TrimHasNoEdgeSpace(s);
    CollapseShape(t);
  }

  /** On a string in which every space is a single ' ' followed by a
      non-space, `CollapseRuns` is the identity. */
  lemma {:induction false} CollapseOfSingleSpaces(s: string)
    requires forall i :: 0 <= i < |s| && IsSpace(s[i]) ==>
      s[i] == ' ' && i + 1 < |s| && !IsSpace(s[i + 1])
    ensures CollapseRuns(s) == s
    decreases |s|
  {
    if |s| > 0 {
      var tail := s[1..];
      assert forall i :: 0 <= i < |tail| && IsSpace(tail[i]) ==>
        tail[i] == ' ' && i + 1 < |tail| && !IsSpace(tail[i + 1]) by {
        forall i | 0 <= i < |tail| && IsSpace(tail[i])
          ensures tail[i] == ' ' && i + 1 < |tail| && !IsSpace(tail[i + 1])
        {
          assert tail[i] == s[i + 1];
        }
      }
      if IsSpace(s[0]) {
        TrimStartOfNonSpaceStart(tail);
      }
      CollapseOfSingleSpaces(tail);
      assert [s[0]] + tail == s;
    }
  }

  /** A normalised string is a fixed point of the normalisation, so
      normalising twice is normalising once. */
  lemma NormalizeFixesNormalized(s: string)
    requires Normalized(s)
    ensures Normalize(s) == s
  {
    TrimStartOfNonSpaceStart(s);
    assert Trim(s) == s;
    CollapseOfSingleSpaces(s);
  }

  lemma NormalizeIdempotent(s: string)
    ensures Normalize(Normalize(s)) == Normalize(s)
  {
    NormalizeIsNormalized(s);
    NormalizeFixesNormalized(Normalize(s));
  }

  lemma JoinCons(w: string, ws: seq<string>)
    requires |ws| > 0
    ensures Join([w] + ws) == w + [' '] + Join(ws)
  {
    assert ([w] + ws)[1..] == ws;
  }

  /** A string that starts with a word splits into that word and the rest. */
  lemma WordsOfWordStart(t: string)
    requires t != [] && !IsSpace(t[0])
    ensures |TakeWord(t)| > 0
    ensures t == TakeWord(t) + t[|TakeWord(t)|..]
    ensures Words(t) == [TakeWord(t)] + Words(t[|TakeWord(t)|..])
  {
    TakeWordIsPrefix(t);
    TrimStartOfNonSpaceStart(t);
  }

  /** Leading white space does not change the words. */
  lemma WordsAfterSpaces(s: string)
    ensures Words(s) == Words(TrimStart(s))
  {
    TrimStartOfNonSpaceStart(TrimStart(s));
  }

  /** The last word: nothing but white space follows it. */
  lemma LastWord(w: string, rest: string)
    requires |w| > 0 && NoSpace(w)
    requires TrimStart(rest) == []
    ensures CollapseRuns(TrimEnd(w + rest)) == w
    ensures Words(rest) == []
  {
    TrimStartIsSuffix(rest);
    assert rest[..|rest|] == rest;
    TrimEndOfWordThenSpaces(w, rest);
    CollapseOfWord(w);
  }

  lemma TrimEndAfterWordAndSpaces(w: string, sp: string, r: string)
    requires r != [] && !IsSpace(r[0])
    ensures TrimEnd(w + sp + r) == w + (sp + TrimEnd(r))
    ensures TrimEnd(r) != [] && !IsSpace(TrimEnd(r)[0])
  {
    var te := TrimEnd(r);
    assert !AllSpace(r);
    TrimEndOfConcat(w + sp, r);
    assert (w + sp) + te == w + (sp + te);
    TrimEndIsPrefix(r);
    assert r[0..] == r;
  }

  lemma CollapseWordSpaceWord(w: string, sp: string, t: string)
    requires NoSpace(w)
    requires |sp| > 0 && AllSpace(sp)
    requires t != [] && !IsSpace(t[0])
    ensures CollapseRuns(w + (sp + t)) == w + [' '] + CollapseRuns(t)
  {
    CollapseAfterWord(w, sp + t);
    CollapseSpaceRun(sp, t);
    assert w + ([' '] + CollapseRuns(t)) == w + [' '] + CollapseRuns(t);
  }

  /** A word, a run of white space, and a string that starts with another word. */
  lemma NextWord(w: string, sp: string, r: string)
    requires |w| > 0 && NoSpace(w)
    requires |sp| > 0 && AllSpace(sp)
    requires r != [] && !IsSpace(r[0])
    ensures CollapseRuns(TrimEnd(w + sp + r)) == w + [' '] + CollapseRuns(TrimEnd(r))
  {
    TrimEndAfterWordAndSpaces(w, sp, r);
    CollapseWordSpaceWord(w, sp, TrimEnd(r));
  }


  /** What follows the first word is a non-empty run of white space and then
      the rest of the string, when the rest has any word at all. */
  lemma SpaceAfterWord(t: string)
    requires t != [] && !IsSpace(t[0])
    requires TrimStart(t[|TakeWord(t)|..]) != []
    ensures var rest := t[|TakeWord(t)|..];
      var r2 := TrimStart(rest);
      rest == rest[..|rest| - |r2|] + r2 && |rest[..|rest| - |r2|]| > 0
      && AllSpace(rest[..|rest| - |r2|])
  {
    var w := TakeWord(t);
    var rest := t[|w|..];
    var r2 := TrimStart(rest);
    TakeWordIsPrefix(t);
    TrimStartIsSuffix(rest);
    assert rest == rest[..|rest| - |r2|] + r2;
    assert rest != [] && rest[0] == t[|w|];
  }

  /** On a string that starts with a non-space, trimming the end and
      collapsing the runs gives the words joined by single spaces. */
  lemma {:induction false} CollapseTrimEndIsJoinWords(t: string)
    requires t == [] || !IsSpace(t[0])
    ensures CollapseRuns(TrimEnd(t)) == Join(Words(t))
    decreases |t|
  {
    if t != [] {
      WordsOfWordStart(t);
      var w := TakeWord(t);
      var rest := t[|w|..];
      var r2 := TrimStart(rest);
      if r2 == [] {
        LastWord(w, rest);
      } else {
        SpaceAfterWord(t);
        var sp := rest[..|rest| - |r2|];
        assert t == w + sp + r2;
        NextWord(w, sp, r2);
        CollapseTrimEndIsJoinWords(r2);
        WordsAfterSpaces(rest);
        WordsOfWordStart(r2);
        JoinCons(w, Words(r2));
      }
    }
  }

  /** Reference definition of the normalisation: the words of the input
      joined by single spaces. */
  lemma NormalizeIsJoinOfWords(s: string)
    ensures Normalize(s) == Join(Words(s))
  {
    WordsAfterSpaces(s);
    CollapseTrimEndIsJoinWords(TrimStart(s));
  }

  /** The normalisation is empty exactly when the input is all white space. */
  lemma NormalizeEmptyIffBlank(s: string)
    ensures Normalize(s) == [] <==> AllSpace(s)
  {
    var t0 := TrimStart(s);
    TrimStartIsSuffix(s);
    TrimEndIsPrefix(t0);
    TrimHasNoEdgeSpace(s);
    CollapseShape(Trim(s));
    if !AllSpace(s) {
      assert s[..|s|] == s;
      assert t0 != [];
      assert t0[0..] == t0;
      assert Trim(s) != [];
    }
  }

  /* ---------------------------------------------------------------------- */
  /* `.length`: UTF-16 code units                                           */
  /* ---------------------------------------------------------------------- */

  /** The UTF-16 code units of `c`: a surrogate pair above U+FFFF. */
  function CodeUnits(c: char): nat {
    if c as int > 0xFFFF then 2 else 1
  }

  /** JavaScript's `s.length`. */
  function JsLength(s: string): (n: nat)
    ensures |s| <= n <= 2 * |s|
    decreases |s|
  {
    if |s| == 0 then 0 else CodeUnits(s[0]) + JsLength(s[1..])
  }

  /** A character of the Basic Multilingual Plane is one code unit. */
  predicate InBmp(c: char) {
    c as int <= 0xFFFF
  }

  /** Within the Basic Multilingual Plane `.length` counts characters. */
  lemma {:induction false} JsLengthOfBmp(s: string)
    requires forall i :: 0 <= i < |s| ==> InBmp(s[i])
    ensures JsLength(s) == |s|
    decreases |s|
  {
    if |s| > 0 {
      assert forall i :: 0 <= i < |s| - 1 ==> s[1..][i] == s[i + 1];
      JsLengthOfBmp(s[1..]);
    }
  }

  /** `.length` of `n` copies of one character. */
  lemma {:induction false} JsLengthOfRepeat(n: nat, c: char)
    ensures JsLength(seq(n, _ => c)) == n * CodeUnits(c)
  {
    if n > 0 {
      assert seq(n, _ => c)[1..] == seq(n - 1, _ => c);
      JsLengthOfRepeat(n - 1, c);
    }
  }

  /* ---------------------------------------------------------------------- */
  /* The two patterns and the sticker-name rewrite                          */
  /* ---------------------------------------------------------------------- */

  /** A character of the class `[a-z0-9]`. */
  predicate IsLowerAlnum(c: char) {
    ('a' <= c <= 'z') || ('0' <= c <= '9')
  }

  predicate AllLowerAlnum(s: string) {
    forall i :: 0 <= i < |s| ==> IsLowerAlnum(s[i])
  }

  /** A string of `[a-z0-9]` has as many code units as characters. */
  lemma LowerAlnumLength(s: string)
    requires AllLowerAlnum(s)
    ensures JsLength(s) == |s|
  {
    JsLengthOfBmp(s);
  }

  /** `s.match(/^[a-z0-9]+$/g)` succeeds. */
  predicate MatchesKeyPattern(s: string) {
    |s| > 0 && AllLowerAlnum(s)
  }

  /** Length of the optional `:` and the optional `-` after it that the
      pattern `^:?-?[a-z0-9]+:?$` admits at the front of `s`. */
  function LeadLength(s: string): (n: nat)
    ensures n <= 2 && n <= |s|
  {
    var colon := if |s| > 0 && s[0] == ':' then 1 else 0;
    if |s| > colon && s[colon] == '-' then colon + 1 else colon
  }

  /** Where the `[a-z0-9]+` part ends: before a trailing `:`, if any. */
  function CoreEnd(s: string): (e: nat)
    ensures LeadLength(s) <= e <= |s|
  {
    if |s| > LeadLength(s) && s[|s| - 1] == ':' then |s| - 1 else |s|
  }

  /** What is left of a candidate sticker name once the optional leading
      `:`, the optional `-` after it and the optional trailing `:` are
      stripped, in the order the pattern reads them. */
  function StickerNameCore(s: string): (c: string)
    ensures |c| <= |s|
  {
    s[LeadLength(s)..CoreEnd(s)]
  }

  /** `s.match(/^:?-?[a-z0-9]+:?$/g)` succeeds. */
  predicate MatchesStickerPattern(s: string) {
    MatchesKeyPattern(StickerNameCore(s))
  }

  predicate OptionalColonDash(p: string) {
    p == [] || p == [':'] || p == ['-'] || p == [':', '-']
  }

  predicate OptionalColon(p: string) {
    p == [] || p == [':']
  }

  /** One way of reading `s` as `:?-?[a-z0-9]+:?`, with the `[a-z0-9]+` run
      at `s[i..j]`. */
  predicate RegexSplit(s: string, i: int, j: int) {
    0 <= i < j <= |s| &&
    OptionalColonDash(s[..i]) && MatchesKeyPattern(s[i..j]) && OptionalColon(s[j..])
  }

  /** The regular expression `^:?-?[a-z0-9]+:?$` read literally: the string
      splits into an optional `:`, an optional `-`, a non-empty run of
      `[a-z0-9]` and an optional `:`. */
  ghost predicate StickerRegex(s: string) {
    exists i, j :: RegexSplit(s, i, j)
  }

  /** A reading of the regular expression can only put the `[a-z0-9]+` run
      where `StickerNameCore` finds it. */
  lemma RegexSplitIsUnique(s: string, i: int, j: int)
    requires RegexSplit(s, i, j)
    ensures i == LeadLength(s) && j == CoreEnd(s)
  {
    var core := s[i..j];
    assert IsLowerAlnum(core[0]) && core[0] == s[i];
    assert IsLowerAlnum(core[j - i - 1]) && core[j - i - 1] == s[j - 1];
    var pre := s[..i];
    if pre == [':'] {
      assert s[0] == pre[0];
    } else if pre == ['-'] {
      assert s[0] == pre[0];
    } else if pre == [':', '-'] {
      assert s[0] == pre[0] && s[1] == pre[1];
    }
    if s[j..] == [':'] {
      assert s[|s| - 1] == s[j..][0];
    }
  }

  /** Around the core of a matching name sit an optional `:-` and an
      optional `:`. */
  lemma PatternParts(s: string)
    ensures OptionalColonDash(s[..LeadLength(s)]) && OptionalColon(s[CoreEnd(s)..])
  {
    var i, j := LeadLength(s), CoreEnd(s);
    var pre := s[..i];
    assert OptionalColonDash(pre) by {
      if i == 1 {
        assert pre == [s[0]];
      } else if i == 2 {
        assert pre == [s[0], s[1]];
      }
    }
    assert OptionalColon(s[j..]) by {
      if j < |s| {
        assert s[j..] == [s[|s| - 1]];
      }
    }
  }

  /** The deterministic reading agrees with the regular expression. */
  lemma StickerPatternIsRegex(s: string)
    ensures MatchesStickerPattern(s) <==> StickerRegex(s)
  {
    var i, j := LeadLength(s), CoreEnd(s);
    if MatchesStickerPattern(s) {
      PatternParts(s);
      assert RegexSplit(s, i, j);
    }
    if StickerRegex(s) {
      var i', j' :| RegexSplit(s, i', j');
      RegexSplitIsUnique(s, i', j');
    }
  }

  /** ASCII case folding of `toLowerCase()`; the pattern admits only
      characters it leaves alone. */
  function LowerChar(c: char): char {
    if 'A' <= c <= 'Z' then (c as int + 32) as char else c
  }

  function ToLower(s: string): (r: string)
    ensures |r| == |s|
    ensures forall i :: 0 <= i < |s| ==> r[i] == LowerChar(s[i])
  {
    seq(|s|, i requires 0 <= i < |s| => LowerChar(s[i]))
  }

  /** `s.replace(/(:|-)/g, '')`. */
  function RemoveColonDash(s: string): (r: string)
    ensures |r| <= |s|
    ensures forall i :: 0 <= i < |r| ==> r[i] != ':' && r[i] != '-'
    decreases |s|
  {
    if |s| == 0 then []
    else if s[0] == ':' || s[0] == '-' then RemoveColonDash(s[1..])
    else [s[0]] + RemoveColonDash(s[1..])
  }

  /** The name a sticker is stored under:
      `name.toLowerCase().replace(/(:|-)/g, '')`. */
  function StoredStickerName(raw: string): string {
    RemoveColonDash(ToLower(raw))
  }

  lemma {:induction false} RemoveColonDashOfPlain(s: string)
    requires AllLowerAlnum(s)
    ensures RemoveColonDash(s) == s
    decreases |s|
  {
    if |s| > 0 {
      RemoveColonDashOfPlain(s[1..]);
      assert [s[0]] + s[1..] == s;
    }
  }

  lemma {:induction false} RemoveColonDashOfConcat(a: string, b: string)
    ensures RemoveColonDash(a + b) == RemoveColonDash(a) + RemoveColonDash(b)
    decreases |a|
  {
    if |a| > 0 {
      assert (a + b)[0] == a[0];
      assert (a + b)[1..] == a[1..] + b;
      RemoveColonDashOfConcat(a[1..], b);
    } else {
      assert a + b == b;
    }
  }

  lemma ToLowerOfNoUpper(s: string)
    requires forall k :: 0 <= k < |s| ==> !('A' <= s[k] <= 'Z')
    ensures ToLower(s) == s
  {
  }

  /** A name that matches the sticker pattern has no upper-case letter, so
      `toLowerCase()` leaves it alone. */
  lemma PatternHasNoUpper(raw: string)
    requires MatchesStickerPattern(raw)
    ensures ToLower(raw) == raw
  {
    var i, j := LeadLength(raw), CoreEnd(raw);
    var pre, core, post := raw[..i], raw[i..j], raw[j..];
    PatternParts(raw);
    forall k | 0 <= k < |raw|
      ensures !('A' <= raw[k] <= 'Z')
    {
      if k < i {
        assert raw[k] == pre[k];
      } else if k < j {
        assert raw[k] == core[k - i];
      } else {
        assert raw[k] == post[k - j];
      }
    }
    ToLowerOfNoUpper(raw);
  }

  /** A name that matches the sticker pattern is stored as the `[a-z0-9]+`
      run inside it: non-empty, lower-case alphanumeric and no longer than
      what was submitted. */
  lemma StoredNameIsCore(raw: string)
    requires MatchesStickerPattern(raw)
    ensures StoredStickerName(raw) == StickerNameCore(raw)
    ensures MatchesKeyPattern(StoredStickerName(raw))
    ensures |StoredStickerName(raw)| <= |raw|
  {
    var i, j := LeadLength(raw), CoreEnd(raw);
    var pre, core, post := raw[..i], raw[i..j], raw[j..];
    PatternParts(raw);
    PatternHasNoUpper(raw);
    assert raw == pre + core + post;
    RemoveAroundCore(pre, core, post);
  }

  /** Removing `:` and `-` from an optional `:-`, a run without either, and
      an optional `:` leaves the run. */
  lemma RemoveAroundCore(pre: string, core: string, post: string)
    requires OptionalColonDash(pre) && AllLowerAlnum(core) && OptionalColon(post)
    ensures RemoveColonDash(pre + core + post) == core
  {
    assert RemoveColonDash(pre) == [] by {
      if pre == [':', '-'] {
        assert pre[1..] == ['-'];
      }
    }
    assert RemoveColonDash(post) == [] by {
      if post == [':'] {
        assert post[1..] == [];
      }
    }
    RemoveColonDashOfPlain(core);
    RemoveColonDashOfConcat(pre + core, post);
    RemoveColonDashOfConcat(pre, core);
  }
}
