/** The admin route normaliser: a route is parsed into segments, stripped of its prefixes and printed again. */
module Routes {
  import opened Text

  // ---------- splitting and joining ----------

  /** `strings.Split` at every slash. */
  function Split(s: string): (r: seq<string>)
    ensures r != []
    ensures forall i | 0 <= i < |r| :: '/' !in r[i]
  {
    if s == "" then [""]
    else
      var rest := Split(s[1..]);
      if s[0] == '/' then [""] + rest else [[s[0]] + rest[0]] + rest[1..]
  }

  /** `strings.Join` with a slash. */
  function Join(segs: seq<string>): string {
    if segs == [] then "" else if |segs| == 1 then segs[0] else segs[0] + "/" + Join(segs[1..])
  }

  lemma {:induction false} SplitAtSlash(seg: string, rest: string)
    requires '/' !in seg
    ensures Split(seg + "/" + rest) == [seg] + Split(rest)
    ensures Split(seg) == [seg]
  {
    if seg == "" {
      assert "" + "/" + rest == "/" + rest;
    } else {
      SplitAtSlash(seg[1..], rest);
      assert (seg + "/" + rest)[1..] == seg[1..] + "/" + rest;
      assert [seg[0]] + seg[1..] == seg;
    }
  }

  /** Splitting undoes joining, as long as no segment holds a slash. */
  lemma {:induction false} SplitUndoesJoin(segs: seq<string>)
    requires segs != [] && forall i | 0 <= i < |segs| :: '/' !in segs[i]
    ensures Split(Join(segs)) == segs
  {
    if |segs| == 1 {
      SplitAtSlash(segs[0], "");
    } else {
      SplitUndoesJoin(segs[1..]);
      SplitAtSlash(segs[0], Join(segs[1..]));
    }
  }

  /** Joining undoes splitting on any text. */
  lemma {:induction false} JoinUndoesSplit(s: string)
    ensures Join(Split(s)) == s
  {
    if s == "" {
    } else {
      JoinUndoesSplit(s[1..]);
      var rest := Split(s[1..]);
      if s[0] != '/' && |rest| > 1 {
        assert [s[0]] + rest[0] + "/" + Join(rest[1..]) == [s[0]] + (rest[0] + "/" + Join(rest[1..]));
      }
    }
  }

  lemma {:induction false} JoinAppend(a: seq<string>, b: seq<string>)
    requires a != [] && b != []
    ensures Join(a + b) == Join(a) + "/" + Join(b)
  {
    if |a| == 1 {
      assert (a + b)[1..] == b;
    } else {
      JoinAppend(a[1..], b);
      assert (a + b)[1..] == a[1..] + b;
      assert a[0] + "/" + (Join(a[1..]) + "/" + Join(b)) == a[0] + "/" + Join(a[1..]) + "/" + Join(b);
    }
  }

  // ---------- cleaning a rooted path ----------

  predicate Proper(seg: string) { seg != "" && seg != "." && seg != ".." && '/' !in seg }

  predicate AllProper(segs: seq<string>) { forall i | 0 <= i < |segs| :: Proper(segs[i]) }

  /** One path element met after the elements kept so far; nothing lies above the root. */
  function Push(kept: seq<string>, seg: string): seq<string> {
    if seg == "" || seg == "." then kept
    else if seg == ".." then if kept == [] then [] else kept[..|kept| - 1]
    else kept + [seg]
  }

  function Resolve(segs: seq<string>): (r: seq<string>)
    ensures (forall i | 0 <= i < |segs| :: '/' !in segs[i]) ==> AllProper(r)
  {
    if segs == [] then [] else Push(Resolve(segs[..|segs| - 1]), segs[|segs| - 1])
  }

  /** Go's `path.Clean` on a path that starts with a slash. */
  function Clean(p: string): string { "/" + Join(Resolve(Split(p))) }

  lemma {:induction false} ResolveAppend(before: seq<string>, segs: seq<string>)
    requires AllProper(segs)
    ensures Resolve(before + segs) == Resolve(before) + segs
  {
    if segs == [] {
      assert before + segs == before;
    } else {
      var front := segs[..|segs| - 1];
      ResolveAppend(before, front);
      assert (before + segs)[..|before + segs| - 1] == before + front;
      assert Proper(segs[|segs| - 1]);
      assert Resolve(before) + front + [segs[|segs| - 1]] == Resolve(before) + segs;
    }
  }

  function TrimPrefix(s: string): string { if s != "" && s[0] == '/' then s[1..] else s }

  function SplitSegments(cleaned: string): seq<string> {
    var trimmed := TrimPrefix(cleaned);
    if trimmed == "" then [] else Split(trimmed)
  }

  function JoinSegments(segs: seq<string>): (r: string)
    ensures r != "" && r[0] == '/'
  {
    if segs == [] then "/" else "/" + Join(segs)
  }

  /** The segments of a route as it comes in. */
  function Segments(route: string): seq<string> { SplitSegments(Clean("/" + TrimSpace(route))) }

  lemma JoinIsEmptyOnlyForNone(segs: seq<string>)
    requires AllProper(segs)
    ensures Join(segs) == "" <==> segs == []
  {
  }

  /** Printed segments parse back to themselves. */
  lemma ParseUndoesPrint(segs: seq<string>)
    requires AllProper(segs)
    ensures SplitSegments(JoinSegments(segs)) == segs
  {
    hide Split, Join;
    JoinIsEmptyOnlyForNone(segs);
    if segs != [] { SplitUndoesJoin(segs); }
  }

  lemma SegmentsAreResolved(route: string)
    ensures Segments(route) == Resolve(Split(TrimSpace(route))) && AllProper(Segments(route))
  {
    hide TrimSpace, AllProper;
    var t := TrimSpace(route);
    SplitAtSlash("", t);
    assert "" + "/" + t == "/" + t;
    var segs := Resolve(Split("/" + t));
    ParseUndoesPrint(segs);
    assert JoinSegments(segs) == Clean("/" + t) by { JoinIsEmptyOnlyForNone(segs); }
    ResolveEmptyFirst(Split(t));
  }

  lemma PushBlank()
    ensures Push([], "") == []
  {
  }

  lemma {:induction false} ResolveEmptyFirst(segs: seq<string>)
    ensures Resolve([""] + segs) == Resolve(segs)
  {
    hide Push;
    if segs == [] {
      assert Resolve([""]) == Push(Resolve([]), "");
      assert Push([], "") == [] by { PushBlank(); }
      assert [""] + segs == [""];
    } else {
      var front := segs[..|segs| - 1];
      ResolveEmptyFirst(front);
      assert ([""] + segs)[..|segs|] == [""] + front;
    }
  }

  // ---------- trimming leading segments ----------

  predicate Leads(segs: seq<string>, prefix: seq<string>) {
    && 0 < |prefix| <= |segs|
    && forall i | 0 <= i < |prefix| :: EqualFold(segs[i], prefix[i])
  }

  function WithoutLeading(segs: seq<string>, prefix: seq<string>): seq<string> {
    if Leads(segs, prefix) then segs[|prefix|..] else segs
  }

  method TrimLeadingSegments(segs: seq<string>, prefix: seq<string>) returns (r: seq<string>)
    ensures r == WithoutLeading(segs, prefix)
  {
    hide EqualFold;
    if |prefix| == 0 || |segs| < |prefix| {
      return segs;
    }
    var matches := true;
    var i := 0;
    while i < |prefix|
      invariant 0 <= i <= |prefix|
      invariant matches && forall k | 0 <= k < i :: EqualFold(segs[k], prefix[k])
    {
      if !EqualFold(segs[i], prefix[i]) {
        matches := false;
        break;
      }
      i := i + 1;
    }
    r := if matches then segs[|prefix|..] else segs;
  }

  // ---------- the two routes ----------

  function TrimSlashes(s: string): (r: string)
    ensures r != "" ==> r[0] != '/' && r[|r| - 1] != '/'
  {
    if s != "" && s[0] == '/' then TrimSlashes(s[1..])
    else if s != "" && s[|s| - 1] == '/' then TrimSlashes(s[..|s| - 1])
    else s
  }

  function SanitizePrefix(prefix: string): string { TrimSlashes(TrimSpace(prefix)) }

  /** The three prefixes are taken off one after the other. */
  function Strip(segs: seq<string>, sanitized: string): seq<string> {
    var s := WithoutLeading(segs, ["api", "v1"]);
    var t := if sanitized != "" then WithoutLeading(s, [sanitized]) else s;
    WithoutLeading(t, ["admin"])
  }

  function Normalize(route: string, prefix: string): string {
    JoinSegments(Strip(Segments(route), SanitizePrefix(prefix)))
  }

  function APIPath(route: string, prefix: string): string {
    var sanitized := SanitizePrefix(prefix);
    var base := "/api/v1" + if sanitized != "" then "/" + sanitized else "";
    var rest := TrimPrefix(Normalize(route, prefix));
    if rest == "" then base else base + "/" + rest
  }

  // ---------- what they promise ----------

  function Base(sanitized: string): seq<string> {
    ["api", "v1"] + if sanitized != "" then [sanitized] else []
  }

  lemma StripKeepsProper(segs: seq<string>, sanitized: string)
    requires AllProper(segs)
    ensures AllProper(Strip(segs, sanitized))
    ensures |Strip(segs, sanitized)| <= |segs|
  {
    hide Proper, EqualFold;
  }

  /** What is left of a route after normalising. */
  function Rest(route: string, prefix: string): seq<string> { Strip(Segments(route), SanitizePrefix(prefix)) }

  lemma RestIsProper(route: string, prefix: string)
    ensures AllProper(Rest(route, prefix))
  {
    hide Segments, SanitizePrefix, Strip, AllProper;
    SegmentsAreResolved(route);
    StripKeepsProper(Segments(route), SanitizePrefix(prefix));
  }

  /** The full path is the base's segments and the rest's, printed. */
  lemma PathIsPrinted(route: string, prefix: string)
    ensures APIPath(route, prefix) == JoinSegments(Base(SanitizePrefix(prefix)) + Rest(route, prefix))
  {
    hide SanitizePrefix, Strip, Segments;
    var sanitized, rest := SanitizePrefix(prefix), Rest(route, prefix);
    RestIsProper(route, prefix);
    JoinIsEmptyOnlyForNone(rest);
    BaseIsPrinted(sanitized);
    if rest == [] {
      assert Base(sanitized) + rest == Base(sanitized);
    } else {
      JoinAppend(Base(sanitized), rest);
      assert "/" + (Join(Base(sanitized)) + "/" + Join(rest)) == "/" + Join(Base(sanitized)) + "/" + Join(rest);
    }
  }

  lemma BaseIsPrinted(sanitized: string)
    ensures "/" + Join(Base(sanitized)) == "/api/v1" + if sanitized != "" then "/" + sanitized else ""
  {
    assert Join(["api", "v1"]) == "api/v1";
    if sanitized != "" {
      JoinAppend(["api", "v1"], [sanitized]);
      assert "/" + ("api/v1" + "/" + sanitized) == "/api/v1" + ("/" + sanitized);
    }
  }

  lemma {:induction false} TrimRightConcat(a: string, b: string)
    requires a != "" && !IsSpace(a[|a| - 1])
    ensures TrimRight(a + b) == a + TrimRight(b)
  {
    hide IsSpace;
    if b == "" {
      assert a + b == a;
    } else {
      assert (a + b)[..|a + b| - 1] == a + b[..|b| - 1];
      if IsSpace(b[|b| - 1]) { TrimRightConcat(a, b[..|b| - 1]); }
    }
  }

  lemma SplitPrinted(segs: seq<string>)
    requires segs != [] && forall i | 0 <= i < |segs| :: '/' !in segs[i]
    ensures Split("/" + Join(segs)) == [""] + segs
  {
    hide Split, Join;
    SplitAtSlash("", Join(segs));
    assert "" + "/" + Join(segs) == "/" + Join(segs);
    SplitUndoesJoin(segs);
  }

  /** Any printed path read again: its segments resolved, less the white space at its very end. */
  lemma ReparseAny(segs: seq<string>)
    requires segs != [] && forall i | 0 <= i < |segs| :: '/' !in segs[i]
    ensures Segments(JoinSegments(segs)) == Push(Resolve(segs[..|segs| - 1]), TrimRight(segs[|segs| - 1]))
  {
    hide IsSpace, TrimRight, TrimSpace, JoinSegments, Segments, Split, Join, Push, Proper;
    var front, last := segs[..|segs| - 1], segs[|segs| - 1];
    var t := TrimRight(last);
    SegmentsAreResolved(JoinSegments(segs));
    TrimmedPrint(front, last);
    assert segs == front + [last];
    SplitPrinted(front + [t]);
    ResolveEmptyFirst(front + [t]);
    assert (front + [t])[..|front|] == front;
  }

  /** A printed path of proper segments read again loses nothing but the white space at its very end. */
  lemma Reparse(segs: seq<string>)
    requires AllProper(segs) && segs != []
    ensures Segments(JoinSegments(segs)) == Push(segs[..|segs| - 1], TrimRight(segs[|segs| - 1]))
  {
    hide TrimRight, JoinSegments, Segments, Resolve, Push, Proper;
    forall i | 0 <= i < |segs| ensures '/' !in segs[i] { ProperHasNoSlash(segs[i]); }
    ReparseAny(segs);
    ResolvedAlready(segs[..|segs| - 1]);
  }

  lemma ProperHasNoSlash(seg: string)
    requires Proper(seg)
    ensures '/' !in seg
  {
  }

  lemma ResolvedAlready(segs: seq<string>)
    requires AllProper(segs)
    ensures Resolve(segs) == segs
  {
    ResolveAppend([], segs);
    assert [] + segs == segs;
  }

  lemma TrimmedPrint(front: seq<string>, last: string)
    ensures TrimSpace(JoinSegments(front + [last])) == "/" + Join(front + [TrimRight(last)])
  {
    hide TrimRight, TrimLeft;
    var head := if front == [] then "/" else "/" + Join(front) + "/";
    forall x: string ensures "/" + Join(front + [x]) == head + x {
      if front == [] {
        assert front + [x] == [x];
      } else {
        JoinAppend(front, [x]);
        assert "/" + (Join(front) + "/" + x) == head + x;
      }
    }
    TrimRightConcat(head, last);
  }

  /** A normalised route is rooted and already clean. */
  lemma NormalizedIsClean(route: string, prefix: string)
    ensures var n := Normalize(route, prefix); n[0] == '/' && Clean(n) == n
  {
    hide SanitizePrefix, Segments, Strip, Proper;
    var rest := Rest(route, prefix);
    RestIsProper(route, prefix);
    if rest == [] {
      assert Split("/") == ["", ""] && Resolve([""]) == Push([], "") == [];
      assert Resolve(["", ""]) == Push(Resolve([""]), "");
    } else {
      forall i | 0 <= i < |rest| ensures '/' !in rest[i] { ProperHasNoSlash(rest[i]); }
      SplitPrinted(rest);
      ResolveAppend([""], rest);
      assert Resolve([""]) == Push([], "");
      assert [] + rest == rest;
    }
  }

  /** The base comes off in any letter case. */
  lemma StripTakesBase(spelt: seq<string>, sanitized: string, rest: seq<string>)
    requires |spelt| == |Base(sanitized)|
    requires forall i | 0 <= i < |spelt| :: EqualFold(spelt[i], Base(sanitized)[i])
    ensures Strip(spelt + rest, sanitized) == WithoutLeading(rest, ["admin"])
  {
    hide EqualFold;
    assert EqualFold(spelt[0], "api") && EqualFold(spelt[1], "v1");
    var s := WithoutLeading(spelt + rest, ["api", "v1"]);
    if sanitized == "" {
      assert s == rest;
    } else {
      assert s == [spelt[2]] + rest;
      assert EqualFold(spelt[2], sanitized);
    }
  }

  lemma PrintIsInjective(a: seq<string>, b: seq<string>)
    requires AllProper(a) && AllProper(b) && JoinSegments(a) == JoinSegments(b)
    ensures a == b
  {
    hide JoinSegments, SplitSegments, AllProper;
    ParseUndoesPrint(a);
    ParseUndoesPrint(b);
  }

  /** However the base is spelt, what follows it is what remains. */
  lemma AnySpellingNormalizes(spelt: seq<string>, rest: seq<string>, prefix: string)
    requires |spelt| == |Base(SanitizePrefix(prefix))| && AllProper(spelt + rest)
    requires forall i | 0 <= i < |spelt| :: EqualFold(spelt[i], Base(SanitizePrefix(prefix))[i])
    requires var last := (spelt + rest)[|spelt + rest| - 1]; TrimRight(last) == last
    ensures Normalize(JoinSegments(spelt + rest), prefix) == JoinSegments(WithoutLeading(rest, ["admin"]))
  {
    hide SanitizePrefix, Segments, Strip, TrimRight, JoinSegments, ToLower, WithoutLeading;
    var full := spelt + rest;
    Reparse(full);
    assert Proper(full[|full| - 1]) && full[..|full| - 1] + [full[|full| - 1]] == full;
    StripTakesBase(spelt, SanitizePrefix(prefix), rest);
  }

  // ---------- what cleaning and sanitising come to ----------

  /** Cleaning goes by what has been kept so far. */
  lemma {:induction false} ResolveCongruent(a: seq<string>, a': seq<string>, b: seq<string>)
    requires Resolve(a) == Resolve(a')
    ensures Resolve(a + b) == Resolve(a' + b)
  {
    if b == [] {
      assert a + b == a && a' + b == a';
    } else {
      var front := b[..|b| - 1];
      ResolveCongruent(a, a', front);
      assert (a + b)[..|a + b| - 1] == a + front && (a' + b)[..|a' + b| - 1] == a' + front;
    }
  }

  /** Blank and dot segments go, wherever they stand. */
  lemma StayingGoes(a: seq<string>, seg: string, b: seq<string>)
    requires seg == "" || seg == "."
    ensures Resolve(a + [seg] + b) == Resolve(a + b)
  {
    assert (a + [seg])[..|a|] == a;
    ResolveCongruent(a + [seg], a, b);
  }

  /** Two dots take the segment before them along; at the root there is none. */
  lemma UpGoesBack(a: seq<string>, seg: string, b: seq<string>)
    requires Proper(seg)
    ensures Resolve(a + [seg, ".."] + b) == Resolve(a + b)
    ensures Resolve([".."] + b) == Resolve(b)
  {
    assert (a + [seg, ".."])[..|a| + 1] == a + [seg];
    assert (a + [seg])[..|a|] == a;
    assert (Resolve(a) + [seg])[..|Resolve(a)|] == Resolve(a);
    ResolveCongruent(a + [seg, ".."], a, b);
    assert Resolve([".."]) == Push(Resolve([]), "..") == [];
    ResolveCongruent([".."], [], b);
    assert [] + b == b;
  }

  predicate AllSlashes(s: string) { forall i | 0 <= i < |s| :: s[i] == '/' }

  lemma {:induction false} TrimSlashesTakes(a: string, m: string, b: string)
    requires AllSlashes(a) && AllSlashes(b) && (m != "" ==> m[0] != '/' && m[|m| - 1] != '/')
    ensures TrimSlashes(a + m + b) == m
    decreases |a| + |b|
  {
    if a != "" {
      assert (a + m + b)[1..] == a[1..] + m + b;
      TrimSlashesTakes(a[1..], m, b);
    } else if b != "" {
      if m == "" {
        assert a + m + b == b && b[1..] + "" + "" == b[1..];
        TrimSlashesTakes(b[1..], "", "");
      } else {
        assert (a + m + b)[..|a + m + b| - 1] == a + m + b[..|b| - 1];
        TrimSlashesTakes(a, m, b[..|b| - 1]);
      }
    } else {
      assert a + m + b == m;
    }
  }

  /** A prefix loses the white space around it, then the slashes around the rest, and nothing else. */
  lemma SanitizeTakes(l: string, a: string, m: string, b: string, t: string)
    requires AllSpace(l) && AllSpace(t) && AllSlashes(a) && AllSlashes(b) && Tidy(a + m + b)
    requires m != "" ==> m[0] != '/' && m[|m| - 1] != '/'
    ensures SanitizePrefix(l + (a + m + b) + t) == m
  {
    hide IsSpace, TrimSpace, TrimSlashes;
    TrimSpaceTakes(l, a + m + b, t);
    TrimSlashesTakes(a, m, b);
  }
}
