/**
 * The endpoint-descriptor parser (src/structures/Endpoint.js).
 *
 * A descriptor such as `GET,OPTIONS,HEAD   /img/<blush,bonk,boop>` becomes an
 * endpoint with a verb (`get`), a url (`/img`) and an optional list of subtypes
 * (`["blush/", "bonk/", "boop/"]`). The source derives the url and the subtypes with
 * global, case-insensitive regular-expression replaces; each is modelled here by a
 * scanner that walks the descriptor left to right and, at each position, tries the
 * alternatives of the pattern in their written order, deleting what matches and
 * keeping a character where nothing does.
 */
module Endpoints {
  import opened Wrappers
  import opened JsString

  /** A parsed descriptor. The source calls `verb` `type`, a keyword in Dafny. */
  datatype Endpoint = Endpoint(verb: string, url: string, subtypes: Option<seq<string>>) {
    /** `toString()` prints the endpoint as its url. */
    function ToString(): (s: string)
      ensures s == url
    {
      url
    }
  }

  /** The text that follows the upper-cased verb in a verb list such as `GET,OPTIONS,HEAD`. */
  const VerbListTail: string := ",OPTIONS,HEAD"

  /** `${type.toUpperCase()},OPTIONS,HEAD`: the literal head of the first alternative of both patterns. */
  function VerbList(verb: string): string {
    Upper(verb) + VerbListTail
  }

  /** `s` starts with `p`, compared the way the `i` flag compares ASCII text. */
  predicate StartsWithIgnoringCase(s: string, p: string) {
    |p| <= |s| && Lower(s[..|p|]) == Lower(p)
  }

  /**
   * The length of the match of `VerbList(verb)` followed by a greedy `more+` at the
   * head of `s`, or 0 when that alternative does not match there.
   */
  function VerbRun(s: string, verb: string, more: char -> bool): (n: nat)
    ensures n <= |s|
    ensures n > 0 ==> n > |VerbList(verb)| && StartsWithIgnoringCase(s, VerbList(verb))
    ensures n > 0 ==> forall i | |VerbList(verb)| <= i < n :: more(s[i])
    ensures n > 0 ==> n == |s| || !more(s[n])
    ensures n == 0 ==>
      !(StartsWithIgnoringCase(s, VerbList(verb)) && |VerbList(verb)| < |s| && more(s[|VerbList(verb)|]))
  {
    var h := VerbList(verb);
    if StartsWithIgnoringCase(s, h) && LeadingRun(s[|h|..], more) > 0 then
      |h| + LeadingRun(s[|h|..], more)
    else
      0
  }

  /** No position of `s` starts a verb run. */
  predicate NoVerbRun(s: string, verb: string, more: char -> bool)
    decreases |s|
  {
    s == [] || (VerbRun(s, verb, more) == 0 && NoVerbRun(s[1..], verb, more))
  }

  /**
   * The subtype pattern is written inside a template literal, where `\s` is just `s`;
   * under the `i` flag its `(s+)` matches a run of `s` and `S`.
   */
  predicate IsLetterS(c: char) {
    c == 's' || c == 'S'
  }

  /** `/<` followed by at least one character that `.` matches, at the head of `s`. */
  predicate AnnotationAt(s: string) {
    |s| >= 3 && s[0] == '/' && s[1] == '<' && IsLineChar(s[2])
  }

  predicate HasAnnotation(s: string) {
    exists i | 0 <= i < |s| :: AnnotationAt(s[i..])
  }

  /** `endpoint.split(",")[0].toLowerCase()`: the lower-cased text before the first comma. */
  function TypeOf(d: string): (t: string)
    ensures |t| <= |d| && ',' !in t
    ensures forall i | 0 <= i < |t| :: t[i] == LowerChar(d[i])
    ensures |t| < |d| ==> d[|t|] == ','
  {
    SplitHead(d, ',');
    Lower(Split(d, ',')[0])
  }

  /**
   * The global replace of `(VERB,OPTIONS,HEAD(\s+)|\/<(.+))` by nothing: a verb list
   * followed by white space is deleted, and `/<` with everything after it up to the end
   * of the line is deleted.
   */
  function StripUrl(s: string, verb: string): (r: string)
    ensures |r| <= |s|
    ensures s != [] && VerbRun(s, verb, IsSpace) == 0 && !AnnotationAt(s) ==> r != [] && r[0] == s[0]
    decreases |s|
  {
    if s == [] then []
    else if VerbRun(s, verb, IsSpace) > 0 then StripUrl(s[VerbRun(s, verb, IsSpace)..], verb)
    else if AnnotationAt(s) then StripUrl(s[2 + LeadingRun(s[2..], IsLineChar)..], verb)
    else [s[0]] + StripUrl(s[1..], verb)
  }

  /** Positions that start no match of the url pattern are kept as they are. */
  lemma {:induction false} StripUrlKeeps(s: string, verb: string, k: nat)
    requires k <= |s|
    requires forall i | 0 <= i < k :: VerbRun(s[i..], verb, IsSpace) == 0 && !AnnotationAt(s[i..])
    ensures StripUrl(s, verb) == s[..k] + StripUrl(s[k..], verb)
    decreases k
  {
    if k > 0 {
      assert s[0..] == s;
      forall i | 0 <= i < k - 1
        ensures VerbRun(s[1..][i..], verb, IsSpace) == 0 && !AnnotationAt(s[1..][i..])
      {
        assert s[1..][i..] == s[i + 1..];
      }
      StripUrlKeeps(s[1..], verb, k - 1);
      assert s[1..][k - 1..] == s[k..];
      ConsConcat(s[..k], StripUrl(s[k..], verb));
      assert s[..k][1..] == s[1..][..k - 1];
    } else {
      assert s[..0] + StripUrl(s, verb) == StripUrl(s, verb);
    }
  }

  /**
   * The length of the match of `.+(?=<)` at the head of `s`: the greedy `.+` backs off
   * to the last `<` before the end of the line, and the match needs at least one
   * character before it. 0 when it does not match.
   */
  function LookaheadRun(s: string): (n: nat)
    ensures n > 0 ==> n < |s| && s[n] == '<'
    ensures forall k | n < k < LeadingRun(s, IsLineChar) :: s[k] != '<'
    ensures n > 0 ==> n < LeadingRun(s, IsLineChar)
  {
    var j := LastIndexOf(s[..LeadingRun(s, IsLineChar)], '<');
    if j > 0 then j else 0
  }

  /**
   * The global replace of `(VERB,OPTIONS,HEAD(s+)|<|>|'|.+(?=<))` by nothing: the first
   * step of deriving the subtypes.
   */
  function StripSubtypeText(s: string, verb: string): (r: string)
    ensures |r| <= |s|
    ensures forall i | 0 <= i < |r| :: r[i] != '<' && r[i] != '>' && r[i] != '\''
    decreases |s|
  {
    if s == [] then []
    else if VerbRun(s, verb, IsLetterS) > 0 then StripSubtypeText(s[VerbRun(s, verb, IsLetterS)..], verb)
    else if s[0] == '<' || s[0] == '>' || s[0] == '\'' then StripSubtypeText(s[1..], verb)
    else if LookaheadRun(s) > 0 then StripSubtypeText(s[LookaheadRun(s)..], verb)
    else [s[0]] + StripSubtypeText(s[1..], verb)
  }

  /** `.replace(/,/gi, "/,")`. */
  function ReplaceCommas(s: string): (r: string)
    ensures |r| >= |s|
    ensures ',' !in s ==> r == s
  {
    if s == [] then [] else (if s[0] == ',' then "/," else [s[0]]) + ReplaceCommas(s[1..])
  }

  /** The replace adds one character per comma and keeps the number of commas. */
  lemma {:induction false} ReplaceCommasCount(s: string)
    ensures |ReplaceCommas(s)| == |s| + Count(s, ',')
    ensures Count(ReplaceCommas(s), ',') == Count(s, ',')
  {
    if s != [] {
      ReplaceCommasCount(s[1..]);
      var h := if s[0] == ',' then "/," else [s[0]];
      CountConcat(h, ReplaceCommas(s[1..]), ',');
      if s[0] == ',' {
        assert Count(h, ',') == 1 by {
          assert h[1..] == ",";
          assert h[1..][1..] == [];
        }
      } else {
        assert h[1..] == [];
      }
    }
  }

  /** `/\<(.+)/gi.test(endpoint)`: a `<` followed by a character that `.` matches. */
  predicate HasAngleSection(d: string)
    ensures HasAngleSection(d) ==> '<' in d
    ensures NoLineTerminator(d) && d != [] ==> (HasAngleSection(d) <==> '<' in d[..|d| - 1])
  {
    AngleFollowedOnOneLine(d);
    exists i | 0 <= i < |d| - 1 :: d[i] == '<' && IsLineChar(d[i + 1])
  }

  /** On one line every `<` but a final one is followed by a character that `.` matches. */
  lemma AngleFollowedOnOneLine(d: string)
    ensures NoLineTerminator(d) && d != [] ==>
      ((exists i | 0 <= i < |d| - 1 :: d[i] == '<' && IsLineChar(d[i + 1])) <==> '<' in d[..|d| - 1])
  {
    if NoLineTerminator(d) && d != [] {
      var init := d[..|d| - 1];
      if '<' in init {
        var j :| 0 <= j < |init| && init[j] == '<';
        assert d[j] == '<' && IsLineChar(d[j + 1]);
      }
      if exists i | 0 <= i < |d| - 1 :: d[i] == '<' && IsLineChar(d[i + 1]) {
        var j :| 0 <= j < |d| - 1 && d[j] == '<' && IsLineChar(d[j + 1]);
        assert init[j] == '<';
      }
    }
  }

  function Slashed(parts: seq<string>): seq<string> {
    seq(|parts|, i requires 0 <= i < |parts| => parts[i] + "/")
  }

  function DropSlash(p: string): string {
    if |p| > 0 && p[|p| - 1] == '/' then p[..|p| - 1] else p
  }

  function Unslashed(parts: seq<string>): seq<string> {
    seq(|parts|, i requires 0 <= i < |parts| => DropSlash(parts[i]))
  }

  /** Replacing each comma by `/,`, appending `/` and splitting on `,` puts a `/` after every piece. */
  lemma {:induction false} SplitReplacedCommas(x: string)
    ensures Split(ReplaceCommas(x) + "/", ',') == Slashed(Split(x, ','))
  {
    if x == [] {
      SplitAfterPrefix("/", [], ',');
      assert ReplaceCommas(x) + "/" == "/" + [];
      assert "/" + [] == "/";
    } else {
      SplitReplacedCommas(x[1..]);
      if x[0] == ',' {
        SplitReplacedCommasAtComma(x);
      } else {
        SplitReplacedCommasAtOther(x);
      }
    }
  }

  lemma SplitReplacedCommasAtComma(x: string)
    requires x != [] && x[0] == ','
    requires Split(ReplaceCommas(x[1..]) + "/", ',') == Slashed(Split(x[1..], ','))
    ensures Split(ReplaceCommas(x) + "/", ',') == Slashed(Split(x, ','))
  {
    var r := ReplaceCommas(x[1..]);
    assert ReplaceCommas(x) == "/," + r;
    CommaStep(r);
    SplitSlashComma(r + "/");
    SlashedComma(x);
  }

  lemma CommaStep(r: string)
    ensures "/," + r + "/" == "/" + ([','] + (r + "/"))
  {
  }

  /** Splitting `/,` and a text on commas gives `/` and the pieces of the text. */
  lemma SplitSlashComma(y: string)
    ensures Split("/" + ([','] + y), ',') == ["/"] + Split(y, ',')
  {
    var z := [','] + y;
    assert z[1..] == y;
    assert Split(z, ',') == [[]] + Split(y, ',');
    SplitAfterPrefix("/", z, ',');
    assert "/" + [] == "/";
  }

  lemma SlashedComma(x: string)
    requires x != [] && x[0] == ','
    ensures Slashed(Split(x, ',')) == ["/"] + Slashed(Split(x[1..], ','))
  {
    var rest := Split(x[1..], ',');
    assert Split(x, ',') == [[]] + rest;
    var sl := Slashed([[]] + rest);
    assert [] + "/" == "/";
    assert sl[0] == "/";
    assert sl[1..] == Slashed(rest);
    assert sl == [sl[0]] + sl[1..];
  }

  lemma SplitReplacedCommasAtOther(x: string)
    requires x != [] && x[0] != ','
    requires Split(ReplaceCommas(x[1..]) + "/", ',') == Slashed(Split(x[1..], ','))
    ensures Split(ReplaceCommas(x) + "/", ',') == Slashed(Split(x, ','))
  {
    SplitReplacedCons(x);
    SlashedCons(x);
  }

  lemma SplitReplacedCons(x: string)
    requires x != [] && x[0] != ','
    requires Split(ReplaceCommas(x[1..]) + "/", ',') == Slashed(Split(x[1..], ','))
    ensures var sr := Slashed(Split(x[1..], ','));
      Split(ReplaceCommas(x) + "/", ',') == [[x[0]] + sr[0]] + sr[1..]
  {
    var y := ReplaceCommas(x[1..]) + "/";
    assert ReplaceCommas(x) + "/" == [x[0]] + y;
    SplitAfterPrefix([x[0]], y, ',');
  }

  lemma SlashedCons(x: string)
    requires x != [] && x[0] != ','
    ensures var sr := Slashed(Split(x[1..], ','));
      Slashed(Split(x, ',')) == [[x[0]] + sr[0]] + sr[1..]
  {
    var rest := Split(x[1..], ',');
    var sr := Slashed(rest);
    var parts := [[x[0]] + rest[0]] + rest[1..];
    assert Split(x, ',') == parts;
    var sp := Slashed(parts);
    assert sp[0] == [x[0]] + sr[0] by {
      assert [x[0]] + (rest[0] + "/") == [x[0]] + rest[0] + "/";
    }
    assert sp[1..] == sr[1..];
    assert sp == [sp[0]] + sp[1..];
  }

  /** `new Endpoint(endpoint)`: the verb, the url and, when the descriptor has a `<` section, the subtypes. */
  function Parse(d: string): (e: Endpoint)
    ensures e.subtypes.Some? <==> HasAngleSection(d)
    ensures e.subtypes.Some? ==> |e.subtypes.value| >= 1
    ensures e.subtypes.Some? ==>
      forall i | 0 <= i < |e.subtypes.value| :: |e.subtypes.value[i]| >= 1 && e.subtypes.value[i][|e.subtypes.value[i]| - 1] == '/'
  {
    var verb := TypeOf(d);
    var text := StripSubtypeText(d, verb);
    SplitReplacedCommas(text);
    Endpoint(verb, StripUrl(d, verb), if HasAngleSection(d) then Some(Split(ReplaceCommas(text) + "/", ',')) else None)
  }

  // ---------------------------------------------------------------------------
  // The url

  lemma {:induction false} StripUrlSubsequence(s: string, verb: string)
    ensures IsSubsequence(StripUrl(s, verb), s)
    decreases |s|
  {
    if s != [] {
      var r := StripUrl(s, verb);
      if VerbRun(s, verb, IsSpace) > 0 {
        var v := VerbRun(s, verb, IsSpace);
        StripUrlSubsequence(s[v..], verb);
        SubsequenceOfSuffix(r, s, v);
      } else if AnnotationAt(s) {
        var n := 2 + LeadingRun(s[2..], IsLineChar);
        StripUrlSubsequence(s[n..], verb);
        SubsequenceOfSuffix(r, s, n);
      } else {
        StripUrlSubsequence(s[1..], verb);
        assert r[1..] == StripUrl(s[1..], verb);
      }
    }
  }

  /** The url is the descriptor with some characters deleted, so it is never longer. */
  lemma UrlIsSubsequence(d: string)
    ensures IsSubsequence(Parse(d).url, d)
    ensures |Parse(d).url| <= |d|
  {
    StripUrlSubsequence(d, TypeOf(d));
    SubsequenceLength(Parse(d).url, d);
  }

  lemma {:induction false} StripUrlPlain(s: string, verb: string)
    requires forall i | 0 <= i < |s| :: VerbRun(s[i..], verb, IsSpace) == 0 && !AnnotationAt(s[i..])
    ensures StripUrl(s, verb) == s
    decreases |s|
  {
    if s != [] {
      assert s[0..] == s;
      forall i | 0 <= i < |s| - 1
        ensures VerbRun(s[1..][i..], verb, IsSpace) == 0 && !AnnotationAt(s[1..][i..])
      {
        assert s[1..][i..] == s[i + 1..];
      }
      StripUrlPlain(s[1..], verb);
    }
  }

  /**
   * A descriptor in which no verb list followed by white space and no `/<` followed by
   * a character occurs keeps its text as its url.
   */
  lemma UrlOfPlainDescriptor(d: string)
    requires forall i | 0 <= i < |d| :: VerbRun(d[i..], TypeOf(d), IsSpace) == 0 && !AnnotationAt(d[i..])
    ensures Parse(d).url == d
  {
    StripUrlPlain(d, TypeOf(d));
  }

  lemma {:induction false} StripUrlCut(s: string, verb: string)
    requires NoLineTerminator(s)
    requires forall i | 0 <= i < |s| :: VerbRun(s[i..], verb, IsSpace) == 0
    ensures StripUrl(s, verb) <= s
    ensures forall i | 0 <= i < |StripUrl(s, verb)| :: !AnnotationAt(s[i..])
    ensures |StripUrl(s, verb)| < |s| ==> AnnotationAt(s[|StripUrl(s, verb)|..])
    decreases |s|
  {
    if s != [] {
      assert s[0..] == s;
      if AnnotationAt(s) {
        StripUrlCutAt(s, verb);
      } else {
        forall i | 0 <= i < |s| - 1
          ensures VerbRun(s[1..][i..], verb, IsSpace) == 0
        {
          assert s[1..][i..] == s[i + 1..];
        }
        StripUrlCut(s[1..], verb);
        StripUrlCutStep(s, verb);
      }
    }
  }

  /** A one-line text that starts with a `/<` match loses all of it. */
  lemma StripUrlCutAt(s: string, verb: string)
    requires NoLineTerminator(s) && AnnotationAt(s) && VerbRun(s, verb, IsSpace) == 0
    ensures StripUrl(s, verb) == []
  {
    LeadingRunWhole(s[2..], IsLineChar);
    assert s[|s|..] == [];
  }

  /** The cut facts of `s[1..]` carry over to `s` when its first character is kept. */
  lemma StripUrlCutStep(s: string, verb: string)
    requires s != [] && VerbRun(s, verb, IsSpace) == 0 && !AnnotationAt(s)
    requires var t, u := s[1..], StripUrl(s[1..], verb);
      && u <= t
      && (forall i | 0 <= i < |u| :: !AnnotationAt(t[i..]))
      && (|u| < |t| ==> AnnotationAt(t[|u|..]))
    ensures var u := StripUrl(s, verb);
      && u <= s
      && (forall i | 0 <= i < |u| :: !AnnotationAt(s[i..]))
      && (|u| < |s| ==> AnnotationAt(s[|u|..]))
  {
    assert s[0..] == s;
    var u := StripUrl(s[1..], verb);
    assert StripUrl(s, verb) == [s[0]] + u;
    forall i | 1 <= i <= |u| ensures s[1..][i - 1..] == s[i..] {
    }
  }

  /** A verb run at the head of the text is deleted before anything else is scanned. */
  lemma StripUrlHead(d: string, verb: string)
    ensures StripUrl(d, verb) == StripUrl(d[VerbRun(d, verb, IsSpace)..], verb)
  {
    if VerbRun(d, verb, IsSpace) == 0 {
      assert d[0..] == d;
    }
  }

  /**
   * After a verb run at the head, a one-line text with no further verb run keeps what
   * comes before its first `/<` that has a character after it.
   */
  lemma StripUrlCutAfterHead(d: string, verb: string)
    requires NoLineTerminator(d)
    requires forall i | VerbRun(d, verb, IsSpace) <= i < |d| :: VerbRun(d[i..], verb, IsSpace) == 0
    ensures var t, u := d[VerbRun(d, verb, IsSpace)..], StripUrl(d, verb);
      && u <= t
      && (forall i | 0 <= i < |u| :: !AnnotationAt(t[i..]))
      && (|u| < |t| ==> AnnotationAt(t[|u|..]))
      && !HasAnnotation(u)
  {
    var v := VerbRun(d, verb, IsSpace);
    var t := d[v..];
    StripUrlHead(d, verb);
    SuffixAfterHead(d, verb, v);
    StripUrlCut(t, verb);
    PrefixWithoutAnnotation(StripUrl(t, verb), t);
  }

  /** The text after position `v` keeps the one-line and no-verb-run facts of the positions it covers. */
  lemma SuffixAfterHead(d: string, verb: string, v: nat)
    requires v <= |d| && NoLineTerminator(d)
    requires forall i | v <= i < |d| :: VerbRun(d[i..], verb, IsSpace) == 0
    ensures NoLineTerminator(d[v..])
    ensures forall i | 0 <= i < |d[v..]| :: VerbRun(d[v..][i..], verb, IsSpace) == 0
  {
    var t := d[v..];
    forall i | 0 <= i < |t| ensures IsLineChar(t[i]) && VerbRun(t[i..], verb, IsSpace) == 0 {
      assert t[i] == d[v + i];
      assert t[i..] == d[v + i..];
    }
  }

  /** A prefix of `t` at none of whose positions `t` starts an annotation holds no annotation. */
  lemma PrefixWithoutAnnotation(u: string, t: string)
    requires u <= t
    requires forall i | 0 <= i < |u| :: !AnnotationAt(t[i..])
    ensures !HasAnnotation(u)
  {
    forall i | 0 <= i < |u| ensures !AnnotationAt(u[i..]) {
      var ui, ti := u[i..], t[i..];
      assert |ui| <= |ti| && forall k | 0 <= k < |ui| :: ui[k] == ti[k];
      assert !AnnotationAt(ti);
    }
  }

  /**
   * When no verb list followed by white space occurs in a one-line descriptor after the
   * one at its head, if any, its url is the text after that head run and before the first
   * `/<` that has a character after it, and the url holds no such `/<` itself.
   */
  lemma UrlStopsAtAnnotation(d: string)
    requires NoLineTerminator(d)
    requires forall i | VerbRun(d, TypeOf(d), IsSpace) <= i < |d| :: VerbRun(d[i..], TypeOf(d), IsSpace) == 0
    ensures var t := d[VerbRun(d, TypeOf(d), IsSpace)..];
      && Parse(d).url <= t
      && (forall i | 0 <= i < |Parse(d).url| :: !AnnotationAt(t[i..]))
      && (|Parse(d).url| < |t| ==> AnnotationAt(t[|Parse(d).url|..]))
      && !HasAnnotation(Parse(d).url)
  {
    StripUrlCutAfterHead(d, TypeOf(d));
  }

  // ---------------------------------------------------------------------------
  // The subtypes

  /** The text after the last `<` of the descriptor. */
  function AngleTail(d: string): string {
    d[LastIndexOf(d, '<') + 1..]
  }

  /** `s` with every `>` and `'` deleted. */
  function RemoveQuotes(s: string): string {
    if s == [] then [] else (if s[0] == '>' || s[0] == '\'' then [] else [s[0]]) + RemoveQuotes(s[1..])
  }

  lemma {:induction false} VerbRunHasNoAngle(s: string, verb: string)
    requires '<' !in verb
    ensures forall i | 0 <= i < VerbRun(s, verb, IsLetterS) :: s[i] != '<'
  {
    var n := VerbRun(s, verb, IsLetterS);
    var h := VerbList(verb);
    if n > 0 {
      assert '<' !in VerbListTail;
      forall i | 0 <= i < n ensures s[i] != '<' {
        if i < |h| {
          assert Lower(s[..|h|])[i] == Lower(h)[i];
          if i < |verb| {
            assert h[i] == UpperChar(verb[i]);
          } else {
            assert h[i] == VerbListTail[i - |verb|];
          }
        } else {
          assert IsLetterS(s[i]);
        }
      }
    }
  }

  /** `last` is the position of the last `<` in `s`. */
  predicate LastAngle(s: string, last: nat) {
    last < |s| && s[last] == '<' && forall k | last < k < |s| :: s[k] != '<'
  }

  lemma LookaheadToLastAngle(s: string, v: nat, last: nat)
    requires NoLineTerminator(s) && LastAngle(s, last) && v < last
    ensures LookaheadRun(s[v..]) == last - v
  {
    var t := s[v..];
    LeadingRunWhole(t, IsLineChar);
    assert t[..|t|] == t;
  }

  /**
   * Scanning from any position up to the last `<` of a one-line text deletes everything
   * up to and including that `<`: the scan continues after it.
   */
  lemma {:induction false} SkipToLastAngle(s: string, verb: string, v: nat, last: nat)
    requires NoLineTerminator(s) && '<' !in verb
    requires LastAngle(s, last) && v <= last
    ensures StripSubtypeText(s[v..], verb) == StripSubtypeText(s[last + 1..], verb)
    decreases last - v, 1
  {
    var t := s[v..];
    if VerbRun(t, verb, IsLetterS) > 0 {
      var w := SkipVerbRun(s, verb, v, last);
      SkipToLastAngle(s, verb, w, last);
    } else if t[0] == '<' || t[0] == '>' || t[0] == '\'' {
      SkipAngleOrQuote(s, verb, v, last);
    } else {
      SkipLookahead(s, verb, v, last);
    }
  }

  /**
   * A verb run at position `v`, at or before the last `<`, is deleted and the scan
   * continues at a later position `w` that is still at or before that `<`.
   */
  lemma SkipVerbRun(s: string, verb: string, v: nat, last: nat) returns (w: nat)
    requires '<' !in verb && LastAngle(s, last) && v <= last
    requires VerbRun(s[v..], verb, IsLetterS) > 0
    ensures v < w <= last
    ensures StripSubtypeText(s[v..], verb) == StripSubtypeText(s[w..], verb)
  {
    w := SkipVerbRunOnce(s, verb, v);
    VerbRunBeforeLastAngle(s, verb, v, last);
  }

  /** Deleting a verb run at position `v` continues the scan at the position `w` after it. */
  lemma SkipVerbRunOnce(s: string, verb: string, v: nat) returns (w: nat)
    requires v < |s| && VerbRun(s[v..], verb, IsLetterS) > 0
    ensures w == v + VerbRun(s[v..], verb, IsLetterS) <= |s|
    ensures StripSubtypeText(s[v..], verb) == StripSubtypeText(s[w..], verb)
  {
    var n := VerbRun(s[v..], verb, IsLetterS);
    w := v + n;
    UnfoldVerbRun(s[v..], verb);
    SliceOfSlice(s, v, n, w);
  }

  lemma SliceOfSlice(s: string, v: nat, n: nat, w: nat)
    requires w == v + n <= |s|
    ensures s[v..][n..] == s[w..]
  {
  }

  /** A verb run holds no `<`, so one starting at or before the last `<` ends before it. */
  lemma VerbRunBeforeLastAngle(s: string, verb: string, v: nat, last: nat)
    requires '<' !in verb && LastAngle(s, last) && v <= last
    ensures v + VerbRun(s[v..], verb, IsLetterS) <= last
  {
    var t := s[v..];
    VerbRunHasNoAngle(t, verb);
    assert t[last - v] == '<';
  }

  lemma {:induction false} SkipAngleOrQuote(s: string, verb: string, v: nat, last: nat)
    requires NoLineTerminator(s) && '<' !in verb
    requires LastAngle(s, last) && v <= last
    requires VerbRun(s[v..], verb, IsLetterS) == 0
    requires s[v] == '<' || s[v] == '>' || s[v] == '\''
    ensures StripSubtypeText(s[v..], verb) == StripSubtypeText(s[last + 1..], verb)
    decreases last - v, 0
  {
    var t := s[v..];
    UnfoldQuote(t, verb);
    assert t[1..] == s[v + 1..];
    if v < last {
      SkipToLastAngle(s, verb, v + 1, last);
    }
  }

  lemma UnfoldVerbRun(s: string, verb: string)
    requires s != [] && VerbRun(s, verb, IsLetterS) > 0
    ensures StripSubtypeText(s, verb) == StripSubtypeText(s[VerbRun(s, verb, IsLetterS)..], verb)
  {
  }

  lemma UnfoldQuote(s: string, verb: string)
    requires s != [] && VerbRun(s, verb, IsLetterS) == 0
    requires s[0] == '<' || s[0] == '>' || s[0] == '\''
    ensures StripSubtypeText(s, verb) == StripSubtypeText(s[1..], verb)
  {
  }

  lemma UnfoldLookahead(s: string, verb: string)
    requires s != [] && VerbRun(s, verb, IsLetterS) == 0
    requires s[0] != '<' && s[0] != '>' && s[0] != '\''
    requires LookaheadRun(s) > 0
    ensures StripSubtypeText(s, verb) == StripSubtypeText(s[LookaheadRun(s)..], verb)
  {
  }

  lemma {:induction false} SkipLookahead(s: string, verb: string, v: nat, last: nat)
    requires NoLineTerminator(s) && '<' !in verb
    requires LastAngle(s, last) && v <= last
    requires VerbRun(s[v..], verb, IsLetterS) == 0
    requires s[v] != '<' && s[v] != '>' && s[v] != '\''
    ensures StripSubtypeText(s[v..], verb) == StripSubtypeText(s[last + 1..], verb)
    decreases last - v, 0
  {
    assert v < last;
    LookaheadStep(s, verb, v, last);
    SkipToLastAngle(s, verb, last, last);
  }

  /** From a plain character before the last `<`, the lookahead alternative deletes up to that `<`. */
  lemma LookaheadStep(s: string, verb: string, v: nat, last: nat)
    requires NoLineTerminator(s) && LastAngle(s, last) && v < last
    requires VerbRun(s[v..], verb, IsLetterS) == 0
    requires s[v] != '<' && s[v] != '>' && s[v] != '\''
    ensures StripSubtypeText(s[v..], verb) == StripSubtypeText(s[last..], verb)
  {
    var t, m := s[v..], last - v;
    LookaheadToLastAngle(s, v, last);
    UnfoldLookahead(t, verb);
    assert t[m..] == s[last..];
  }

  lemma {:induction false} RemoveQuotesClean(s: string, x: string)
    requires forall i | 0 <= i < |s| :: s[i] != '>' && s[i] != '\''
    ensures RemoveQuotes(s + x) == s + RemoveQuotes(x)
  {
    if s == [] {
      assert s + x == x;
    } else {
      assert (s + x)[1..] == s[1..] + x;
      RemoveQuotesClean(s[1..], x);
    }
  }

  lemma {:induction false} CleanTail(s: string, verb: string)
    requires '<' !in s
    requires NoVerbRun(s, verb, IsLetterS)
    ensures StripSubtypeText(s, verb) == RemoveQuotes(s)
    decreases |s|
  {
    if s != [] {
      CleanTail(s[1..], verb);
    }
  }

  /**
   * The subtypes come from the text after the last `<` alone, with `>` and `'` deleted:
   * one subtype per comma-separated piece, in order, each with a trailing `/`. So there
   * is one more subtype than that text has commas, and dropping the trailing `/` from
   * each and joining them with commas gives the text back. This holds for one-line
   * descriptors whose verb has no `<` and whose tail holds no verb list followed by `s`
   * characters (the `\s` of the template literal).
   */
  lemma SubtypesOfLastAngle(d: string)
    requires NoLineTerminator(d)
    requires '<' !in TypeOf(d)
    requires HasAngleSection(d)
    requires NoVerbRun(AngleTail(d), TypeOf(d), IsLetterS)
    ensures Parse(d).subtypes == Some(Slashed(Split(RemoveQuotes(AngleTail(d)), ',')))
    ensures |Parse(d).subtypes.value| == Count(RemoveQuotes(AngleTail(d)), ',') + 1
    ensures Join(Unslashed(Parse(d).subtypes.value), ',') == RemoveQuotes(AngleTail(d))
  {
    SubtypeTextOfLastAngle(d);
    SplitReplacedCommas(RemoveQuotes(AngleTail(d)));
    SlashedPieces(RemoveQuotes(AngleTail(d)));
  }

  lemma SubtypeTextOfLastAngle(d: string)
    requires NoLineTerminator(d)
    requires '<' !in TypeOf(d)
    requires HasAngleSection(d)
    requires NoVerbRun(AngleTail(d), TypeOf(d), IsLetterS)
    ensures StripSubtypeText(d, TypeOf(d)) == RemoveQuotes(AngleTail(d))
  {
    var verb := TypeOf(d);
    var last := LastIndexOf(d, '<');
    assert last >= 0 by {
      var i :| 0 <= i < |d| - 1 && d[i] == '<' && IsLineChar(d[i + 1]);
    }
    SkipToLastAngle(d, verb, 0, last);
    assert d[0..] == d;
    assert d[last + 1..] == AngleTail(d);
    CleanTail(AngleTail(d), verb);
  }

  /** The pieces of `text` with a `/` after each: one more than its commas, and they join back to it. */
  lemma SlashedPieces(text: string)
    ensures |Slashed(Split(text, ','))| == Count(text, ',') + 1
    ensures Join(Unslashed(Slashed(Split(text, ','))), ',') == text
  {
    var parts := Split(text, ',');
    SplitCount(text, ',');
    assert Unslashed(Slashed(parts)) == parts by {
      forall k | 0 <= k < |parts| ensures DropSlash(parts[k] + "/") == parts[k] {
        assert (parts[k] + "/")[..|parts[k]|] == parts[k];
      }
    }
    SplitJoin(text, ',');
  }

  // ---------------------------------------------------------------------------
  // Worked descriptors

  /** A verb run cannot start where the text differs from the verb list, ignoring case. */
  lemma NoVerbRunAtMismatch(s: string, verb: string, more: char -> bool, i: nat)
    requires i < |s| && i < |VerbList(verb)|
    requires LowerChar(s[i]) != LowerChar(VerbList(verb)[i])
    ensures VerbRun(s, verb, more) == 0
  {
    var h := VerbList(verb);
    if |h| <= |s| {
      assert Lower(s[..|h|])[i] != Lower(h)[i];
    }
  }

  /** The verb of a descriptor that starts with `p` and a comma. */
  lemma TypeOfPrefix(d: string, p: string)
    requires ',' !in p && |p| < |d| && d[..|p|] == p && d[|p|] == ','
    ensures TypeOf(d) == Lower(p)
  {
    var x := d[|p|..];
    assert d == p + x;
    SplitAfterPrefix(p, x, ',');
    assert Split(x, ',')[0] == [];
    assert p + [] == p;
  }

  predicate IsLowerLetter(c: char) {
    'a' <= c <= 'z'
  }

  lemma LowerUpper(v: string)
    requires forall i | 0 <= i < |v| :: IsLowerLetter(v[i])
    ensures Lower(Upper(v)) == v
    ensures forall i | 0 <= i < |Upper(v)| :: 'A' <= Upper(v)[i] <= 'Z'
  {
  }

  lemma {:induction false} LeadingRunPrefix(w: string, x: string, p: char -> bool)
    requires forall i | 0 <= i < |w| :: p(w[i])
    requires x == [] || !p(x[0])
    ensures LeadingRun(w + x, p) == |w|
  {
    if w != [] {
      assert (w + x)[1..] == w[1..] + x;
      LeadingRunPrefix(w[1..], x, p);
    } else {
      assert w + x == x;
    }
  }

  /**
   * A verb run of a lower-case verb cannot start at a position from which a `/` comes
   * before any comma: the verb list needs a comma right after the verb's letters.
   */
  lemma NoVerbRunBeforeSlash(s: string, verb: string, more: char -> bool, j: nat)
    requires IsVerbToken(verb)
    requires j < |s| && s[j] == '/'
    requires forall k | 0 <= k < j :: s[k] != ','
    ensures VerbRun(s, verb, more) == 0
  {
    LowerUpper(verb);
    var h := VerbList(verb);
    if j < |verb| {
      assert h[j] == Upper(verb)[j];
      NoVerbRunAtMismatch(s, verb, more, j);
    } else if |verb| < |s| {
      assert h[|verb|] == ',';
      NoVerbRunAtMismatch(s, verb, more, |verb|);
    }
  }

  /** The url replace keeps the first character of a path. */
  lemma StripUrlPathStep(p: string, r: string, verb: string)
    requires IsVerbToken(verb)
    requires p != [] && forall i | 0 <= i < |p| :: p[i] != ',' && p[i] != '<'
    requires |r| >= 2 && r[0] == '/' && r[1] == '<'
    ensures StripUrl(p + r, verb) == [p[0]] + StripUrl(p[1..] + r, verb)
  {
    var s := p + r;
    assert s[|p|] == '/';
    assert forall k | 0 <= k < |p| :: s[k] == p[k];
    NoVerbRunBeforeSlash(s, verb, IsSpace, |p|);
    assert s[1] != '<';
    assert s[1..] == p[1..] + r;
  }

  /** A path with no comma and no `<` is kept by the url replace up to the `/<` after it. */
  lemma {:induction false} StripUrlPath(p: string, r: string, verb: string)
    requires IsVerbToken(verb)
    requires forall i | 0 <= i < |p| :: p[i] != ',' && p[i] != '<'
    requires |r| >= 2 && r[0] == '/' && r[1] == '<'
    ensures StripUrl(p + r, verb) == p + StripUrl(r, verb)
    decreases |p|
  {
    if p == [] {
      assert p + r == r;
    } else {
      var t, x := p[1..], StripUrl(r, verb);
      assert forall i | 0 <= i < |t| :: t[i] == p[i + 1];
      StripUrlPath(t, r, verb);
      StripUrlPathStep(p, r, verb);
      ConsConcat(p, x);
    }
  }

  /** A verb as the catalog spells it, lower-cased: ASCII letters only. */
  predicate IsVerbToken(verb: string) {
    forall i | 0 <= i < |verb| :: IsLowerLetter(verb[i])
  }

  /** White space on the descriptor's one line. */
  predicate IsGap(space: string) {
    |space| >= 1 && forall i | 0 <= i < |space| :: IsSpace(space[i]) && IsLineChar(space[i])
  }

  /** A path such as `/img`: no white space, comma, `<` or line break. */
  predicate IsPathText(path: string) {
    forall i | 0 <= i < |path| :: IsLineChar(path[i]) && !IsSpace(path[i]) && path[i] != ',' && path[i] != '<'
  }

  /** A subtype name such as `blush`: none of the characters the parser treats specially. */
  predicate IsSubtypeName(n: string) {
    forall i | 0 <= i < |n| :: IsLineChar(n[i]) && n[i] != ',' && n[i] != '<' && n[i] != '>' && n[i] != '\''
  }

  /** `VERB,OPTIONS,HEAD   /path/<tail`. */
  function CatalogLine(verb: string, space: string, path: string, tail: string): string {
    VerbList(verb) + space + path + "/<" + tail
  }

  /** `VERB,OPTIONS,HEAD   /path/<a,b,c>`: the form of the descriptors the service's catalog lists. */
  function CatalogDescriptor(verb: string, space: string, path: string, names: seq<string>): string {
    CatalogLine(verb, space, path, Join(names, ',') + ">")
  }

  lemma CatalogVerb(verb: string, d: string)
    requires IsVerbToken(verb)
    requires |VerbList(verb)| <= |d| && d[..|VerbList(verb)|] == VerbList(verb)
    ensures TypeOf(d) == verb
  {
    LowerUpper(verb);
    var u := Upper(verb);
    assert ',' !in u;
    assert d[..|u|] == u && d[|u|] == ',' by {
      assert forall k | 0 <= k < |VerbList(verb)| :: d[k] == VerbList(verb)[k];
    }
    TypeOfPrefix(d, u);
  }

  lemma CatalogLineVerb(verb: string, space: string, path: string, tail: string)
    requires IsVerbToken(verb)
    ensures TypeOf(CatalogLine(verb, space, path, tail)) == verb
  {
    var d := CatalogLine(verb, space, path, tail);
    assert d[..|VerbList(verb)|] == VerbList(verb);
    CatalogVerb(verb, d);
  }

  /** `/<` followed by the rest of a line is deleted whole by the url replace. */
  lemma StripUrlAnnotationToEnd(r: string, verb: string)
    requires IsVerbToken(verb)
    requires |r| >= 3 && r[0] == '/' && r[1] == '<' && NoLineTerminator(r[2..])
    ensures StripUrl(r, verb) == []
  {
    NoVerbRunBeforeSlash(r, verb, IsSpace, 0);
    LeadingRunWhole(r[2..], IsLineChar);
    assert r[2 + |r[2..]|..] == [];
  }

  lemma StripUrlVerbList(verb: string, space: string, x: string)
    requires IsVerbToken(verb) && IsGap(space)
    requires x != [] && !IsSpace(x[0])
    ensures StripUrl(VerbList(verb) + space + x, verb) == StripUrl(x, verb)
  {
    var h := VerbList(verb);
    var d := h + space + x;
    assert d[..|h|] == h;
    assert d[|h|..] == space + x;
    LeadingRunPrefix(space, x, IsSpace);
    assert VerbRun(d, verb, IsSpace) == |h| + |space|;
    assert d[|h| + |space|..] == x;
  }

  lemma CatalogUrl(verb: string, space: string, path: string, tail: string)
    requires IsVerbToken(verb) && IsGap(space) && IsPathText(path)
    requires tail != [] && NoLineTerminator(tail)
    ensures StripUrl(CatalogLine(verb, space, path, tail), verb) == path
  {
    var r := "/<" + tail;
    var x := path + r;
    assert CatalogLine(verb, space, path, tail) == VerbList(verb) + space + x;
    StripUrlVerbList(verb, space, x);
    StripUrlPath(path, r, verb);
    assert r[2..] == tail;
    StripUrlAnnotationToEnd(r, verb);
    assert path + [] == path;
  }

  /** Where the `<` of a catalog descriptor is, and that the descriptor is one line. */
  lemma CatalogText(verb: string, space: string, path: string, tail: string)
    requires IsVerbToken(verb) && IsGap(space) && IsPathText(path)
    requires tail != [] && NoLineTerminator(tail) && '<' !in tail
    ensures var d := CatalogLine(verb, space, path, tail);
      && NoLineTerminator(d) && HasAngleSection(d) && AngleTail(d) == tail
  {
    var h := VerbList(verb);
    var d := CatalogLine(verb, space, path, tail);
    var at := |h| + |space| + |path| + 1;
    assert d[at] == '<' && d[at + 1..] == tail;
    assert forall k | at < k < |d| :: d[k] == tail[k - at - 1];
    assert LastIndexOf(d, '<') == at;
    assert IsLineChar(d[at + 1]);
    LowerUpper(verb);
    forall i | 0 <= i < |d| ensures IsLineChar(d[i]) {
      if i < |Upper(verb)| {
        assert d[i] == Upper(verb)[i];
      } else if i < |h| {
        assert d[i] == VerbListTail[i - |Upper(verb)|];
      } else if i < |h| + |space| {
        assert d[i] == space[i - |h|];
      } else if i < |h| + |space| + |path| {
        assert d[i] == path[i - |h| - |space|];
      } else if i > at {
        assert d[i] == tail[i - at - 1];
      }
    }
  }

  lemma CatalogTail(names: seq<string>)
    requires forall i | 0 <= i < |names| :: IsSubtypeName(names[i])
    ensures NoLineTerminator(Join(names, ',') + ">") && '<' !in Join(names, ',') + ">"
  {
    var list := Join(names, ',');
    JoinChars(names, ',', c => IsLineChar(c) && c != '<');
    assert forall k | 0 <= k < |list| :: (list + ">")[k] == list[k];
  }

  /** No verb run fits in text no longer than the verb list. */
  lemma {:induction false} NoVerbRunShort(s: string, verb: string, more: char -> bool)
    requires |s| <= |VerbList(verb)|
    ensures NoVerbRun(s, verb, more)
    decreases |s|
  {
    if s != [] {
      NoVerbRunShort(s[1..], verb, more);
    }
  }

  lemma CatalogShape(verb: string, space: string, path: string, names: seq<string>)
    requires IsVerbToken(verb) && IsGap(space) && IsPathText(path)
    requires forall i | 0 <= i < |names| :: IsSubtypeName(names[i])
    ensures var d := CatalogDescriptor(verb, space, path, names);
      && NoLineTerminator(d) && HasAngleSection(d) && AngleTail(d) == Join(names, ',') + ">"
      && TypeOf(d) == verb
  {
    var tail := Join(names, ',') + ">";
    CatalogTail(names);
    CatalogText(verb, space, path, tail);
    CatalogLineVerb(verb, space, path, tail);
  }

  lemma CatalogSubtypes(verb: string, space: string, path: string, names: seq<string>)
    requires IsVerbToken(verb) && IsGap(space) && IsPathText(path)
    requires |names| >= 1 && forall i | 0 <= i < |names| :: IsSubtypeName(names[i])
    requires NoVerbRun(Join(names, ',') + ">", verb, IsLetterS)
    ensures Parse(CatalogDescriptor(verb, space, path, names)).subtypes == Some(Slashed(names))
  {
    CatalogShape(verb, space, path, names);
    assert '<' !in verb;
    SubtypesOfLastAngle(CatalogDescriptor(verb, space, path, names));
    SubtypeNamesBack(names);
  }

  lemma SubtypeNamesBack(names: seq<string>)
    requires |names| >= 1 && forall i | 0 <= i < |names| :: IsSubtypeName(names[i])
    ensures Split(RemoveQuotes(Join(names, ',') + ">"), ',') == names
  {
    var list := Join(names, ',');
    JoinChars(names, ',', c => c != '>' && c != '\'');
    RemoveQuotesClean(list, ">");
    assert list + [] == list;
    assert forall i | 0 <= i < |names| :: ',' !in names[i] by {
      forall i | 0 <= i < |names| ensures ',' !in names[i] {
        assert IsSubtypeName(names[i]);
      }
    }
    JoinSplit(names, ',');
  }

  /**
   * The catalog's own descriptor form parses to the verb, the path as its url and the
   * names, each with a trailing `/`, as its subtypes. The names must not spell out a
   * verb list followed by `s` characters (the `\s` of the template literal), which the
   * subtype replace would delete.
   */
  lemma ParseCatalogForm(verb: string, space: string, path: string, names: seq<string>)
    requires IsVerbToken(verb) && IsGap(space) && IsPathText(path)
    requires |names| >= 1 && forall i | 0 <= i < |names| :: IsSubtypeName(names[i])
    requires NoVerbRun(Join(names, ',') + ">", verb, IsLetterS)
    ensures Parse(CatalogDescriptor(verb, space, path, names)) == Endpoint(verb, path, Some(Slashed(names)))
  {
    var tail := Join(names, ',') + ">";
    CatalogSubtypes(verb, space, path, names);
    CatalogLineVerb(verb, space, path, tail);
    CatalogTail(names);
    CatalogUrl(verb, space, path, tail);
  }

  lemma CatalogExampleShape()
    ensures CatalogDescriptor("get", "   ", "/img", ["blush", "bonk", "boop"])
         == "GET,OPTIONS,HEAD   /img/<blush,bonk,boop>"
  {
    assert Upper("get") == "GET";
    var h := VerbList("get");
    assert h == "GET,OPTIONS,HEAD";
    var list := Join(["blush", "bonk", "boop"], ',');
    assert list == "blush,bonk,boop";
    var a := h + "   ";
    assert a == "GET,OPTIONS,HEAD   ";
    var b := a + "/img";
    assert b == "GET,OPTIONS,HEAD   /img";
    var c := b + "/<";
    assert c == "GET,OPTIONS,HEAD   /img/<";
    var e := c + (list + ">");
    assert list + ">" == "blush,bonk,boop>";
    assert e == "GET,OPTIONS,HEAD   /img/<blush,bonk,boop>";
  }

  /** The descriptor the catalog lists for the image endpoint. */
  lemma CatalogDescriptorExample()
    ensures Parse("GET,OPTIONS,HEAD   /img/<blush,bonk,boop>")
         == Endpoint("get", "/img", Some(["blush/", "bonk/", "boop/"]))
  {
    var names := ["blush", "bonk", "boop"];
    CatalogExampleShape();
    assert |VerbList("get")| == 16;
    assert NoVerbRun(Join(names, ',') + ">", "get", IsLetterS) by {
      NoVerbRunShort(Join(names, ',') + ">", "get", IsLetterS);
    }
    ParseCatalogForm("get", "   ", "/img", names);
    SlashedExample();
  }

  lemma SlashedExample()
    ensures Slashed(["blush", "bonk", "boop"]) == ["blush/", "bonk/", "boop/"]
  {
    var names := ["blush", "bonk", "boop"];
    var sl := Slashed(names);
    assert sl[0] == "blush" + "/" == "blush/";
    assert sl[1] == "bonk" + "/" == "bonk/";
    assert sl[2] == "boop" + "/" == "boop/";
  }

  /** Without white space after the verb list nothing is deleted: the url is the whole descriptor. */
  lemma VerbListWithoutSpaceExample()
    ensures Parse("GET,OPTIONS,HEAD/foo").url == "GET,OPTIONS,HEAD/foo"
  {
    var d := "GET,OPTIONS,HEAD/foo";
    VerbListWithoutSpaceVerb();
    forall i | 0 <= i < |d| ensures VerbRun(d[i..], "get", IsSpace) == 0 && !AnnotationAt(d[i..]) {
      VerbListWithoutSpaceAt(i);
    }
    UrlOfPlainDescriptor(d);
  }

  lemma VerbListWithoutSpaceVerb()
    ensures TypeOf("GET,OPTIONS,HEAD/foo") == "get"
  {
    var d := "GET,OPTIONS,HEAD/foo";
    assert Upper("get") == "GET";
    assert d[..16] == VerbList("get");
    CatalogVerb("get", d);
  }

  /** No position of `GET,OPTIONS,HEAD/foo` starts a match of the url pattern. */
  lemma VerbListWithoutSpaceAt(i: nat)
    requires i < |"GET,OPTIONS,HEAD/foo"|
    ensures VerbRun("GET,OPTIONS,HEAD/foo"[i..], "get", IsSpace) == 0
    ensures !AnnotationAt("GET,OPTIONS,HEAD/foo"[i..])
  {
    var d := "GET,OPTIONS,HEAD/foo";
    assert !AnnotationAt(d[i..]) by {
      assert '<' !in d;
      if i + 1 < |d| {
        assert d[i..][1] == d[i + 1];
      }
    }
    if i == 0 {
      VerbListWithoutSpaceHead();
    } else {
      assert Upper("get")[0] == 'G';
      assert LowerChar(d[i]) != 'g';
      NoVerbRunAtMismatch(d[i..], "get", IsSpace, 0);
    }
  }

  /** The verb list at the head of `GET,OPTIONS,HEAD/foo` is followed by `/`, not white space. */
  lemma VerbListWithoutSpaceHead()
    ensures VerbRun("GET,OPTIONS,HEAD/foo", "get", IsSpace) == 0
  {
    var d := "GET,OPTIONS,HEAD/foo";
    assert Upper("get") == "GET";
    assert d[16..] == "/foo";
    assert LeadingRun(d[16..], IsSpace) == 0;
  }

  /**
   * A verb list with white space deleted from the middle of a url can bring a `/` and a
   * `<` together: the url keeps `/<` although its text starts an annotation.
   */
  lemma UrlCanKeepAnnotation()
    ensures Parse("get,x/GET,OPTIONS,HEAD <y").url == "get,x/<y"
  {
    var d := "get,x/GET,OPTIONS,HEAD <y";
    assert TypeOf(d) == "get" by {
      assert d[..3] == "get";
      TypeOfPrefix(d, "get");
    }
    KeepAnnotationUrl();
    UrlOfVerb(d, "get", "get,x/<y");
  }

  lemma UrlOfVerb(d: string, verb: string, u: string)
    requires TypeOf(d) == verb && StripUrl(d, verb) == u
    ensures Parse(d).url == u
  {
  }

  /** The url replace keeps the text around the deleted verb list and space. */
  lemma KeepAnnotationUrl()
    ensures StripUrl("get,x/GET,OPTIONS,HEAD <y", "get") == "get,x/<y"
  {
    KeepAnnotationHead();
    KeepAnnotationTail();
    KeepAnnotationJoin();
  }

  /** The kept head and the kept tail spell `get,x/<y`. */
  lemma KeepAnnotationJoin()
    ensures "get,x/GET,OPTIONS,HEAD <y"[..6] + "<y" == "get,x/<y"
  {
    var p, t := "get,x/GET,OPTIONS,HEAD <y"[..6], "<y";
    assert p == "get,x/";
    assert |p + t| == 8;
    forall k | 0 <= k < 8 ensures (p + t)[k] == "get,x/<y"[k] {
    }
  }

  /** The first six characters are kept in front of what the replace makes of the rest. */
  lemma KeepAnnotationHead()
    ensures var d := "get,x/GET,OPTIONS,HEAD <y";
      StripUrl(d, "get") == d[..6] + StripUrl(d[6..], "get")
  {
    var d := "get,x/GET,OPTIONS,HEAD <y";
    forall i | 0 <= i < 6 ensures VerbRun(d[i..], "get", IsSpace) == 0 && !AnnotationAt(d[i..]) {
      KeepAnnotationAt(i);
    }
    StripUrlKeeps(d, "get", 6);
  }

  /** From position 6 the verb list and its space are deleted and `<y` is kept. */
  lemma KeepAnnotationTail()
    ensures StripUrl("get,x/GET,OPTIONS,HEAD <y"[6..], "get") == "<y"
  {
    var d := "get,x/GET,OPTIONS,HEAD <y";
    KeepAnnotationRun();
    var t := d[6..][17..];
    assert t == "<y";
    forall i | 0 <= i < |t| ensures VerbRun(t[i..], "get", IsSpace) == 0 && !AnnotationAt(t[i..]) {
      KeepAnnotationAt(23 + i);
      assert t[i..] == d[23 + i..];
    }
    StripUrlPlain(t, "get");
  }

  /** No position of `get,x/GET,OPTIONS,HEAD <y` outside the verb list and its space starts a match. */
  lemma KeepAnnotationAt(i: nat)
    requires i < 6 || 23 <= i < 25
    ensures VerbRun("get,x/GET,OPTIONS,HEAD <y"[i..], "get", IsSpace) == 0
    ensures !AnnotationAt("get,x/GET,OPTIONS,HEAD <y"[i..])
  {
    var d := "get,x/GET,OPTIONS,HEAD <y";
    assert !AnnotationAt(d[i..]) by {
      if i == 5 {
        assert d[i..][1] == 'G';
      } else {
        assert d[i] != '/';
      }
    }
    assert Upper("get") == "GET";
    if i == 0 {
      assert VerbList("get")[4] == 'O';
      NoVerbRunAtMismatch(d[i..], "get", IsSpace, 4);
    } else {
      assert LowerChar(d[i]) != 'g';
      NoVerbRunAtMismatch(d[i..], "get", IsSpace, 0);
    }
  }

  /** At position 6 the verb list and one space are deleted together. */
  lemma KeepAnnotationRun()
    ensures VerbRun("get,x/GET,OPTIONS,HEAD <y"[6..], "get", IsSpace) == 17
  {
    var s := "get,x/GET,OPTIONS,HEAD <y"[6..];
    assert Upper("get") == "GET";
    assert s[..16] == VerbList("get");
    assert s[16..] == " " + "<y";
    LeadingRunPrefix(" ", "<y", IsSpace);
  }

  /** Text without a comma starts no verb run: the verb list holds a comma. */
  lemma NoVerbRunWithoutComma(s: string, verb: string, more: char -> bool)
    requires IsVerbToken(verb)
    requires forall i | 0 <= i < |s| :: s[i] != ','
    ensures VerbRun(s, verb, more) == 0
  {
    LowerUpper(verb);
    if |verb| < |s| {
      assert VerbList(verb)[|verb|] == ',';
      NoVerbRunAtMismatch(s, verb, more, |verb|);
    }
  }

  /** The url replace keeps a path that follows the verb list and its white space. */
  lemma StripUrlPlainPath(verb: string, space: string, path: string)
    requires IsVerbToken(verb) && IsGap(space) && IsPathText(path) && path != []
    ensures StripUrl(VerbList(verb) + space + path, verb) == path
  {
    StripUrlVerbList(verb, space, path);
    forall i | 0 <= i < |path| ensures VerbRun(path[i..], verb, IsSpace) == 0 && !AnnotationAt(path[i..]) {
      var p := path[i..];
      assert forall k | 0 <= k < |p| :: p[k] == path[i + k];
      NoVerbRunWithoutComma(p, verb, IsSpace);
      if |p| >= 2 {
        assert p[1] != '<';
      }
    }
    StripUrlPlain(path, verb);
  }

  /**
   * A catalog line without subtypes, `VERB,OPTIONS,HEAD<white space><path>`, parses to
   * the verb, the path as its url, and no subtypes.
   */
  lemma ParsePlainCatalogLine(verb: string, space: string, path: string)
    requires IsVerbToken(verb) && IsGap(space) && IsPathText(path) && path != []
    ensures Parse(VerbList(verb) + space + path) == Endpoint(verb, path, None)
  {
    var d := VerbList(verb) + space + path;
    assert d[..|VerbList(verb)|] == VerbList(verb);
    CatalogVerb(verb, d);
    StripUrlPlainPath(verb, space, path);
    PlainLineHasNoAngle(verb, space, path);
    ParseWithoutSubtypes(d, verb, path);
  }

  lemma ParseWithoutSubtypes(d: string, verb: string, url: string)
    requires TypeOf(d) == verb && StripUrl(d, verb) == url && '<' !in d
    ensures Parse(d) == Endpoint(verb, url, None)
  {
  }

  /** A catalog line without subtypes holds no `<`. */
  lemma PlainLineHasNoAngle(verb: string, space: string, path: string)
    requires IsVerbToken(verb) && IsGap(space) && IsPathText(path)
    ensures '<' !in VerbList(verb) + space + path
  {
    var h := VerbList(verb);
    var d := h + space + path;
    LowerUpper(verb);
    assert '<' !in VerbListTail;
    forall k | 0 <= k < |d| ensures d[k] != '<' {
      if k < |Upper(verb)| {
        assert d[k] == Upper(verb)[k];
      } else if k < |h| {
        assert d[k] == VerbListTail[k - |Upper(verb)|];
      } else if k < |h| + |space| {
        assert d[k] == space[k - |h|];
      } else {
        assert d[k] == path[k - |h| - |space|];
      }
    }
  }

  /** `GET,OPTIONS,HEAD /foo` parses to verb `get`, url `/foo` and no subtypes. */
  lemma PlainCatalogExample()
    ensures Parse("GET,OPTIONS,HEAD /foo") == Endpoint("get", "/foo", None)
  {
    assert Upper("get") == "GET";
    assert "GET,OPTIONS,HEAD /foo" == VerbList("get") + " " + "/foo";
    ParsePlainCatalogLine("get", " ", "/foo");
  }

  /** Subtype names can spell the verb list followed by `s`: `get,options,heads>` starts a run of 17 characters. */
  lemma NamesSpellVerbList()
    ensures VerbRun(Join(["get", "options", "heads"], ',') + ">", "get", IsLetterS) == 17
  {
    JoinThreeNames();
    assert "get,options,heads" + ">" == "get,options,heads>";
    HeadsVerbRun();
  }

  lemma JoinThreeNames()
    ensures Join(["get", "options", "heads"], ',') == "get,options,heads"
  {
    assert Join(["heads"], ',') == "heads";
    assert Join(["options", "heads"], ',') == "options" + "," + "heads";
  }

  lemma HeadsVerbRun()
    ensures VerbRun("get,options,heads>", "get", IsLetterS) == 17
  {
    var s := "get,options,heads>";
    assert Upper("get") == "GET";
    assert Lower(s[..16]) == Lower(VerbList("get"));
    assert s[16..] == "s" + ">";
    LeadingRunPrefix("s", ">", IsLetterS);
  }
}
