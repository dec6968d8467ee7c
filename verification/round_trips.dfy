/** Whether a route survives having its prefix added and taken off again. */
module RoundTrips {
  import opened Text
  import opened Routes

  /** What one more pass leaves of the rest of a path. */
  function Again(route: string, prefix: string): seq<string> { Rest(APIPath(route, prefix), prefix) }

  /** The segments the base of a full path reads back as. */
  function BaseSegments(sanitized: string): seq<string> {
    Resolve(["api", "v1"] + if sanitized != "" then Split(sanitized) else [])
  }

  predicate Folds(a: seq<string>, b: seq<string>) {
    |a| == |b| && forall i | 0 <= i < |a| :: EqualFold(a[i], b[i])
  }

  lemma BaseIsProper(sanitized: string)
    ensures AllProper(BaseSegments(sanitized))
  {
    hide Proper;
    var segs := ["api", "v1"] + if sanitized != "" then Split(sanitized) else [];
    forall i | 0 <= i < |segs| ensures '/' !in segs[i] {
      if i >= 2 { assert segs[i] == Split(sanitized)[i - 2]; }
    }
  }

  /** A base without a slash in its prefix. */
  lemma SlashFreeBase(sanitized: string)
    requires '/' !in sanitized
    ensures BaseSegments(sanitized) == Resolve(Base(sanitized))
    ensures BaseSegments(sanitized) ==
              if sanitized == "" || sanitized == "." then ["api", "v1"]
              else if sanitized == ".." then ["api"] else ["api", "v1", sanitized]
  {
    hide Resolve, Split;
    var base := ["api", "v1"];
    assert AllProper(base);
    ResolvedAlready(base);
    assert base + [] == base;
    SplitAtSlash(sanitized, "");
    ResolveOneMore(base, sanitized);
  }

  lemma ResolveOneMore(front: seq<string>, seg: string)
    ensures Resolve(front + [seg]) == Push(Resolve(front), seg)
  {
    assert (front + [seg])[..|front|] == front;
  }

  // ---------- what stripping takes from a base ----------

  /** Letter case does not decide whether a segment is proper. */
  lemma FoldedIsProper(a: string, b: string)
    requires EqualFold(a, b) && Proper(a)
    ensures Proper(b)
  {
    hide ToLower;
    assert |ToLower(a)| == |a| && |ToLower(b)| == |b|;
    forall i | 0 <= i < |a| ensures LowerChar(a[i]) == LowerChar(b[i]) {
      assert ToLower(a)[i] == ToLower(b)[i];
    }
  }

  /** When stripping takes exactly the base off a path: nothing of it may stay, and nothing behind it may go. */
  predicate TakenOff(base: seq<string>, sanitized: string, rest: seq<string>) {
    if Folds(base, ["api", "v1"]) || Folds(base, ["api", "v1", sanitized]) then !Leads(rest, ["admin"])
    else if base == [] then !Leads(rest, ["api", "v1"]) && !Leads(rest, ["admin"])
    else Folds(base, ["admin"]) || Folds(base, ["api", "v1", "admin"])
  }

  /** How many segments stripping takes off the front. */
  function Taken(segs: seq<string>, sanitized: string): (n: nat)
    ensures n <= |segs| && Strip(segs, sanitized) == segs[n..]
  {
    hide EqualFold;
    var a := if |segs| >= 2 && EqualFold(segs[0], "api") && EqualFold(segs[1], "v1") then 2 else 0;
    var b := if sanitized != "" && a < |segs| && EqualFold(segs[a], sanitized) then a + 1 else a;
    if b < |segs| && EqualFold(segs[b], "admin") then b + 1 else b
  }

  /** What the folded words and the prefix can meet in a path. */
  ghost predicate Meets(base: seq<string>, sanitized: string, rest: seq<string>) {
    && (forall x | x in base + rest && EqualFold(x, sanitized) :: base == ["api", "v1", sanitized])
    && (forall i | 0 <= i < |base| :: !EqualFold(base[i], ""))
  }

  /** A base that starts with the version prefix. */
  lemma StripsVersioned(base: seq<string>, sanitized: string, rest: seq<string>)
    requires Meets(base, sanitized, rest)
    requires |base| >= 2 && EqualFold(base[0], "api") && EqualFold(base[1], "v1")
    ensures Taken(base + rest, sanitized) == |base| <==> TakenOff(base, sanitized, rest)
  {
    hide EqualFold;
    var full := base + rest;
    WordsDiffer();
    assert full[0] == base[0] && full[1] == base[1];
    if |base| == 2 {
      if rest != [] { assert full[2] == rest[0] && rest[0] in full; }
    } else {
      assert full[2] == base[2] && base[2] in full;
      if |base| == 3 && rest != [] { assert full[3] == rest[0]; }
    }
  }

  lemma NotBoth(s: string)
    ensures !(EqualFold(s, "api") && EqualFold(s, "admin"))
  {
    WordsDiffer();
    hide ToLower;
  }

  lemma StripsUnversioned(base: seq<string>, sanitized: string, rest: seq<string>)
    requires Meets(base, sanitized, rest)
    requires !(|base| >= 2 && EqualFold(base[0], "api") && EqualFold(base[1], "v1"))
    ensures Taken(base + rest, sanitized) == |base| <==> TakenOff(base, sanitized, rest)
  {
    hide EqualFold;
    var full := base + rest;
    WordsDiffer();
    FoldsToItself("api");
    FoldsToItself("v1");
    if base == [] {
      assert full == rest;
      if rest != [] { assert rest[0] in full; }
    } else {
      assert full[0] == base[0] && base[0] in full;
      NotBoth(base[0]);
      if |base| >= 2 { assert full[1] == base[1]; }
    }
  }

  lemma StripsExactlyIff(base: seq<string>, sanitized: string, rest: seq<string>)
    requires AllProper(base) && AllProper(rest)
    requires Proper(sanitized) ==> base == ["api", "v1", sanitized]
    ensures Strip(base + rest, sanitized) == rest <==> TakenOff(base, sanitized, rest)
  {
    hide EqualFold, Proper, Strip, TakenOff;
    var full := base + rest;
    assert full[|base|..] == rest;
    assert Strip(full, sanitized) == rest <==> Taken(full, sanitized) == |base|;
    forall x | x in full && EqualFold(x, sanitized) ensures base == ["api", "v1", sanitized] {
      assert Proper(x);
      FoldedIsProper(x, sanitized);
    }
    NotBlank(base);
    if |base| >= 2 && EqualFold(base[0], "api") && EqualFold(base[1], "v1") {
      StripsVersioned(base, sanitized, rest);
    } else {
      StripsUnversioned(base, sanitized, rest);
    }
  }

  lemma NotBlank(segs: seq<string>)
    requires AllProper(segs)
    ensures forall i | 0 <= i < |segs| :: !EqualFold(segs[i], "")
  {
    forall i | 0 <= i < |segs| ensures !EqualFold(segs[i], "") {
      assert |ToLower(segs[i])| == |segs[i]| > 0 == |ToLower("")|;
    }
  }

  lemma WordsDiffer()
    ensures !EqualFold("api", "v1") && !EqualFold("api", "admin")
    ensures !EqualFold("v1", "admin") && !EqualFold("..", "admin")
  {
    assert |ToLower("api")| == 3 && |ToLower("admin")| == 5 && |ToLower("v1")| == 2 && |ToLower("..")| == 2;
  }

  // ---------- any prefix, on a path that does not end in white space ----------

  /** A character put in front of split text. */
  function Prepend(c: char, segs: seq<string>): seq<string>
    requires segs != []
  {
    if c == '/' then [""] + segs else [[c] + segs[0]] + segs[1..]
  }

  lemma PrependAppend(c: char, a: seq<string>, b: seq<string>)
    requires a != []
    ensures Prepend(c, a + b) == Prepend(c, a) + b
  {
    if c != '/' { assert (a + b)[1..] == a[1..] + b; }
  }

  lemma SplitFirst(s: string)
    requires s != ""
    ensures Split(s) == Prepend(s[0], Split(s[1..]))
  {
  }

  lemma {:induction false} SplitAppend(a: string, b: string)
    ensures Split(a + "/" + b) == Split(a) + Split(b)
  {
    hide Split, Prepend;
    if a == "" {
      SplitAtSlash("", b);
    } else {
      SplitAppend(a[1..], b);
      SplitFirst(a);
      SplitFirst(a + "/" + b);
      assert (a + "/" + b)[1..] == a[1..] + "/" + b;
      PrependAppend(a[0], Split(a[1..]), Split(b));
    }
  }

  lemma SplitBase(sanitized: string)
    ensures Split(Join(Base(sanitized))) == ["api", "v1"] + if sanitized != "" then Split(sanitized) else []
  {
    hide Split, Join;
    SplitUndoesJoin(["api", "v1"]);
    if sanitized != "" {
      JoinAppend(["api", "v1"], [sanitized]);
      OneJoined(sanitized);
      SplitAppend(Join(["api", "v1"]), sanitized);
    } else {
      assert Base(sanitized) == ["api", "v1"];
    }
  }

  lemma OneJoined(s: string)
    ensures Join([s]) == s
  {
  }

  lemma SplitPath(sanitized: string, rest: seq<string>)
    requires AllProper(rest)
    ensures Split(JoinSegments(Base(sanitized) + rest)) == [""] + (Split(Join(Base(sanitized))) + rest)
  {
    hide Split, Join;
    var base := Base(sanitized);
    SplitAppend("", Join(base + rest));
    SplitAtSlash("", "");
    assert "" + "/" + Join(base + rest) == "/" + Join(base + rest);
    if rest == [] {
      assert base + rest == base;
    } else {
      JoinAppend(base, rest);
      forall i | 0 <= i < |rest| ensures '/' !in rest[i] { assert Proper(rest[i]); }
      SplitUndoesJoin(rest);
      SplitAppend(Join(base), Join(rest));
    }
  }

  lemma AgainKeepsEnd(route: string, prefix: string)
    requires var path := APIPath(route, prefix); !IsSpace(path[|path| - 1])
    ensures Again(route, prefix) ==
              Strip(BaseSegments(SanitizePrefix(prefix)) + Rest(route, prefix), SanitizePrefix(prefix))
  {
    hide SanitizePrefix, Segments, Strip, IsSpace, Split, Join, Resolve, Rest;
    var sanitized, rest, path := SanitizePrefix(prefix), Rest(route, prefix), APIPath(route, prefix);
    RestIsProper(route, prefix);
    PathIsPrinted(route, prefix);
    assert Tidy(path) && TrimSpace(path) == path by { assert path[0] == '/' && !IsSpace('/') by { SlashIsNoSpace(); } }
    SegmentsAreResolved(path);
    SplitPath(sanitized, rest);
    SplitBase(sanitized);
    ResolveEmptyFirst(Split(Join(Base(sanitized))) + rest);
    ResolveAppend(Split(Join(Base(sanitized))), rest);
    assert Again(route, prefix) == Strip(Segments(path), sanitized) by { RestIsStripped(path, prefix); }
  }

  lemma SlashIsNoSpace()
    ensures !IsSpace('/')
  {
  }

  lemma RestIsStripped(route: string, prefix: string)
    ensures Rest(route, prefix) == Strip(Segments(route), SanitizePrefix(prefix))
  {
    hide Segments, Strip, SanitizePrefix;
  }

  /** The two passes agree exactly when they leave the same segments. */
  lemma RoundTripBySegments(route: string, prefix: string)
    ensures Normalize(APIPath(route, prefix), prefix) == Normalize(route, prefix)
            <==> Again(route, prefix) == Rest(route, prefix)
    ensures SplitSegments(Normalize(route, prefix)) == Rest(route, prefix)
  {
    hide SanitizePrefix, Segments, Strip, APIPath, JoinSegments, SplitSegments, AllProper;
    RestIsProper(route, prefix);
    RestIsProper(APIPath(route, prefix), prefix);
    ParseUndoesPrint(Rest(route, prefix));
    if Normalize(APIPath(route, prefix), prefix) == Normalize(route, prefix) {
      PrintIsInjective(Again(route, prefix), Rest(route, prefix));
    }
  }

  lemma ProperBase(sanitized: string)
    requires Proper(sanitized)
    ensures BaseSegments(sanitized) == ["api", "v1", sanitized]
  {
    hide BaseSegments;
    SlashFreeBase(sanitized);
  }

  /**
   * For any prefix: if the full path does not end in white space, taking the prefix off again gives the
   * normalised route back exactly when stripping takes the base, as it reads back, and nothing else.
   */
  lemma AnyPrefixRoundTripIff(route: string, prefix: string)
    requires var path := APIPath(route, prefix); !IsSpace(path[|path| - 1])
    ensures Normalize(APIPath(route, prefix), prefix) == Normalize(route, prefix)
            <==> TakenOff(BaseSegments(SanitizePrefix(prefix)), SanitizePrefix(prefix),
                          SplitSegments(Normalize(route, prefix)))
  {
    hide SanitizePrefix, Segments, Strip, APIPath, JoinSegments, SplitSegments, AllProper, BaseSegments, TakenOff,
      Proper, Normalize, IsSpace;
    var sanitized := SanitizePrefix(prefix);
    RoundTripBySegments(route, prefix);
    AgainKeepsEnd(route, prefix);
    RestIsProper(route, prefix);
    BaseIsProper(sanitized);
    if Proper(sanitized) { ProperBase(sanitized); }
    StripsExactlyIff(BaseSegments(sanitized), sanitized, Rest(route, prefix));
  }

  /** So a prefix of several clean segments never comes off such a path: it is compared as one segment. */
  lemma SeveralSegmentsNeverComeBack(route: string, prefix: string, parts: seq<string>)
    requires |parts| >= 2 && AllProper(parts) && SanitizePrefix(prefix) == Join(parts)
    requires var path := APIPath(route, prefix); !IsSpace(path[|path| - 1])
    ensures Normalize(APIPath(route, prefix), prefix) != Normalize(route, prefix)
  {
    hide SanitizePrefix, APIPath, Normalize, IsSpace, SplitSegments, Resolve, Split, Join, EqualFold;
    AnyPrefixRoundTripIff(route, prefix);
    JoinIsEmptyOnlyForNone(parts);
    forall i | 0 <= i < |parts| ensures '/' !in parts[i] { assert Proper(parts[i]); }
    SplitUndoesJoin(parts);
    assert AllProper(["api", "v1"] + parts);
    ResolvedAlready(["api", "v1"] + parts);
  }

  // ---------- any route, with a prefix of at most one segment ----------

  /** The condition a caller can check: no further admin in front, no white space behind, a prefix that stays put. */
  predicate ComesBack(sanitized: string, normalized: string) {
    var segs := SplitSegments(normalized);
    && sanitized != ".."
    && if segs == [] then
         var t := TrimRight(sanitized);
         t == sanitized || t == "" || t == "." || EqualFold(t, "admin")
       else !EqualFold(segs[0], "admin") && TrimRight(segs[|segs| - 1]) == segs[|segs| - 1]
  }

  /** The printed path, read and stripped once more. */
  lemma AgainSlashFree(route: string, prefix: string)
    requires '/' !in SanitizePrefix(prefix)
    ensures var sanitized, rest := SanitizePrefix(prefix), Rest(route, prefix);
            Again(route, prefix) ==
              if rest != []
              then Strip(Push(BaseSegments(sanitized) + rest[..|rest| - 1], TrimRight(rest[|rest| - 1])), sanitized)
              else if sanitized == "" then Strip(["api", "v1"], sanitized)
              else Strip(Push(["api", "v1"], TrimRight(sanitized)), sanitized)
  {
    hide SanitizePrefix, Segments, Strip, JoinSegments, APIPath, Push, TrimRight, Resolve, Rest, Proper;
    var sanitized, rest := SanitizePrefix(prefix), Rest(route, prefix);
    var full := Base(sanitized) + rest;
    RestIsProper(route, prefix);
    PathIsPrinted(route, prefix);
    forall i | 0 <= i < |rest| ensures '/' !in rest[i] { ProperHasNoSlash(rest[i]); }
    ReparseAny(full);
    RestIsStripped(APIPath(route, prefix), prefix);
    SlashFreeBase(sanitized);
    ResolvedWords();
    if rest != [] {
      var front := rest[..|rest| - 1];
      assert full[..|full| - 1] == Base(sanitized) + front;
      ResolveAppend(Base(sanitized), front);
    } else if sanitized == "" {
      assert full == ["api", "v1"] && full[..1] == ["api"];
    } else {
      assert full[..2] == ["api", "v1"];
    }
  }

  lemma ResolvedWords()
    ensures Resolve(["api", "v1"]) == ["api", "v1"] && Push(Resolve(["api"]), TrimRight("v1")) == ["api", "v1"]
  {
    hide Resolve;
    ResolvedAlready(["api", "v1"]);
    ResolvedAlready(["api"]);
  }

  /** A base that is still there comes off, and at most one admin after it. */
  lemma StripTakesProper(sanitized: string, rest: seq<string>)
    requires '/' !in sanitized && sanitized != ".." && AllProper(rest)
    ensures Strip(BaseSegments(sanitized) + rest, sanitized) == WithoutLeading(rest, ["admin"])
  {
    hide EqualFold, Strip, BaseSegments, Proper, WithoutLeading;
    SlashFreeBase(sanitized);
    var b := if sanitized == "." then "" else sanitized;
    assert BaseSegments(sanitized) == Base(b);
    forall i | 0 <= i < |Base(b)| ensures EqualFold(Base(b)[i], Base(b)[i]) { FoldsToItself(Base(b)[i]); }
    StripTakesBase(Base(b), b, rest);
    if sanitized == "." {
      NothingFoldsToDot(rest);
      StripIgnores(["api", "v1"] + rest, sanitized);
    }
  }

  lemma FoldsToItself(s: string)
    ensures EqualFold(s, s)
  {
  }

  lemma NothingFoldsToDot(segs: seq<string>)
    requires AllProper(segs)
    ensures forall i | 0 <= i < |segs| :: !EqualFold(segs[i], ".")
  {
    hide EqualFold;
    forall i | 0 <= i < |segs| ensures !EqualFold(segs[i], ".") {
      if EqualFold(segs[i], ".") { FoldedIsProper(segs[i], "."); }
    }
  }

  /** A prefix that no segment matches changes nothing. */
  lemma StripIgnores(segs: seq<string>, sanitized: string)
    requires forall i | 2 <= i < |segs| :: !EqualFold(segs[i], sanitized)
    requires Leads(segs, ["api", "v1"])
    ensures Strip(segs, sanitized) == Strip(segs, "")
  {
    hide EqualFold;
    var s := WithoutLeading(segs, ["api", "v1"]);
    assert s != [] ==> s[0] == segs[2];
  }

  lemma ReadBack(base: seq<string>, front: seq<string>, t: string)
    requires AllProper(front) && '/' !in t
    ensures var read := Push(base + front, t);
            if t == ".." && front == [] then read == Push(base, "..")
            else exists x :: AllProper(x) && read == base + x
                   && x == if t == "" || t == "." then front
                           else if t == ".." then front[..|front| - 1] else front + [t]
  {
    hide Proper;
    if t == "" || t == "." {
      assert Push(base + front, t) == base + front;
    } else if t != ".." {
      assert Proper(t) by { PlainIsProper(t); }
      assert base + front + [t] == base + (front + [t]);
    } else if front != [] {
      assert (base + front)[..|base + front| - 1] == base + front[..|front| - 1];
    } else {
      assert base + front == base;
    }
  }

  lemma PlainIsProper(t: string)
    requires t != "" && t != "." && t != ".." && '/' !in t
    ensures Proper(t)
  {
  }

  /** White space at the end is lost, so the segments cannot come back. */
  lemma UntidyIsLost(sanitized: string, rest: seq<string>)
    requires '/' !in sanitized && AllProper(rest)
    requires rest != [] && TrimRight(rest[|rest| - 1]) != rest[|rest| - 1]
    ensures Strip(Push(BaseSegments(sanitized) + rest[..|rest| - 1], TrimRight(rest[|rest| - 1])), sanitized) != rest
  {
    hide EqualFold, TrimRight, Strip, BaseSegments, Proper, Push, WithoutLeading;
    var base, front, last := BaseSegments(sanitized), rest[..|rest| - 1], rest[|rest| - 1];
    var t := TrimRight(last);
    assert t <= last;
    ProperHasNoSlash(last);
    ReadBack(base, front, t);
    SlashFreeBase(sanitized);
    if t == ".." && front == [] {
      ShortBase(sanitized, last);
    } else {
      var x :| AllProper(x) && Push(base + front, t) == base + x
               && x == if t == "" || t == "." then front
                       else if t == ".." then front[..|front| - 1] else front + [t];
      if sanitized == ".." {
        DotsStrip(x);
        ShiftIsLost(x, rest);
      } else {
        StripTakesProper(sanitized, x);
        AdminShortens(x);
        assert |x| == |rest| ==> x[|rest| - 1] == t;
      }
    }
  }

  lemma AdminShortens(x: seq<string>)
    ensures var y := WithoutLeading(x, ["admin"]); y == x || |y| < |x|
  {
  }

  /** Going up from a base without anything after it. */
  lemma ShortBase(sanitized: string, last: string)
    requires '/' !in sanitized && TrimRight(last) != last
    ensures Strip(Push(BaseSegments(sanitized), ".."), sanitized) != [last]
  {
    hide BaseSegments, TrimRight, EqualFold;
    SlashFreeBase(sanitized);
    assert TrimRight("api") == "api" by { ApiIsTidy(); }
    WordsDiffer();
  }

  lemma ApiIsTidy()
    ensures TrimRight("api") == "api"
  {
  }

  /** With the prefix "..", the version is gone: stripping takes two segments or none. */
  lemma DotsStrip(x: seq<string>)
    requires AllProper(x)
    ensures var y := Strip(["api"] + x, ".."); y == ["api"] + x || |y| < |x|
  {
    hide EqualFold, Strip;
    WordsDiffer();
    var full := ["api"] + x;
    assert Proper("api") && AllProper(full) && full[0..] == full;
    forall i | 0 <= i < |full| ensures !EqualFold(full[i], "..") {
      if EqualFold(full[i], "..") { FoldedIsProper(full[i], ".."); }
    }
    assert Strip(full, "..") == full[Taken(full, "..")..];
  }

  /** A path shifted by one is not the path, when its end is not one of its own. */
  lemma ShiftIsLost(x: seq<string>, rest: seq<string>)
    requires rest != [] && TrimRight(rest[|rest| - 1]) != rest[|rest| - 1]
    requires var front, t := rest[..|rest| - 1], TrimRight(rest[|rest| - 1]);
             x == if t == "" || t == "." then front
                  else if t == ".." then if front == [] then [] else front[..|front| - 1] else front + [t]
    ensures ["api"] + x != rest
  {
    hide TrimRight;
    if ["api"] + x == rest {
      assert x == rest[..|rest| - 1];
      AllAlike(rest, |rest| - 1);
      ApiIsTidy();
    }
  }

  lemma {:induction false} AllAlike(rest: seq<string>, i: nat)
    requires i < |rest| && ["api"] + rest[..|rest| - 1] == rest
    ensures rest[i] == "api"
  {
    if i == 0 {
    } else {
      AllAlike(rest, i - 1);
      assert rest[i] == (["api"] + rest[..|rest| - 1])[i] == rest[i - 1];
    }
  }

  // ---------- the theorem ----------

  /** With nothing behind it, the base itself comes back unless its end is lost and mattered. */
  lemma BareBaseIff(sanitized: string)
    requires '/' !in sanitized && sanitized != ""
    ensures Strip(Push(["api", "v1"], TrimRight(sanitized)), sanitized) == []
            <==> sanitized != ".." && var t := TrimRight(sanitized);
                                      t == sanitized || t == "" || t == "." || EqualFold(t, "admin")
  {
    hide TrimRight, EqualFold, Strip;
    var t := TrimRight(sanitized);
    assert t <= sanitized;
    WordsDiffer();
    DotsAreTidy();
    if t == "" || t == "." {
      EmptyStrip(sanitized);
    } else if t == ".." {
      UpIsNotApi(sanitized);
      assert Push(["api", "v1"], t) == ["api"];
      assert Strip(["api"], sanitized) == ["api"][Taken(["api"], sanitized)..];
    } else {
      FoldsToItself(sanitized);
      if EqualFold(t, sanitized) { SameLength(t, sanitized); }
      var full := ["api", "v1", t];
      assert Push(["api", "v1"], t) == full;
      FoldsToItself("api");
      FoldsToItself("v1");
      assert Strip(full, sanitized) == full[Taken(full, sanitized)..];
    }
  }

  lemma EmptyStrip(sanitized: string)
    requires sanitized != ""
    ensures Strip(["api", "v1"], sanitized) == []
  {
  }

  lemma UpIsNotApi(s: string)
    requires ".." <= s
    ensures !EqualFold("api", s)
  {
    assert ToLower(s)[0] == '.' && ToLower("api")[0] == 'a';
  }

  lemma SameLength(t: string, s: string)
    requires t <= s && EqualFold(t, s)
    ensures t == s
  {
    assert |ToLower(t)| == |t| && |ToLower(s)| == |s|;
  }

  lemma DotsAreTidy()
    ensures TrimRight("..") == ".." && TrimRight(".") == "."
  {
  }

  /**
   * For any route and a prefix without a slash: adding the prefix and taking it off again gives the normalised
   * route back exactly when that route does not start with another admin segment or end in white space, and the
   * prefix does not go up or, alone at the end, lose white space that mattered.
   */
  lemma RoundTripIff(route: string, prefix: string)
    requires '/' !in SanitizePrefix(prefix)
    ensures Normalize(APIPath(route, prefix), prefix) == Normalize(route, prefix)
            <==> ComesBack(SanitizePrefix(prefix), Normalize(route, prefix))
  {
    hide SanitizePrefix, Strip, Push, TrimRight, SplitSegments, APIPath, EqualFold, AllProper, Normalize, Rest, Again,
      BaseSegments;
    var sanitized, rest := SanitizePrefix(prefix), Rest(route, prefix);
    RoundTripBySegments(route, prefix);
    RestIsProper(route, prefix);
    AgainSlashFree(route, prefix);
    if rest == [] {
      if sanitized == "" { EmptyBaseComesOff(); } else { BareBaseIff(sanitized); }
    } else if TrimRight(rest[|rest| - 1]) != rest[|rest| - 1] {
      UntidyIsLost(sanitized, rest);
    } else {
      TidyComesBackIff(sanitized, rest);
    }
  }

  lemma EmptyBaseComesOff()
    ensures Strip(["api", "v1"], "") == [] && TrimRight("") == ""
  {
  }

  /** Tidy segments come back unless they start with an admin or the base went up. */
  lemma TidyComesBackIff(sanitized: string, rest: seq<string>)
    requires '/' !in sanitized && AllProper(rest) && rest != []
    ensures Strip(Push(BaseSegments(sanitized) + rest[..|rest| - 1], rest[|rest| - 1]), sanitized) == rest
            <==> sanitized != ".." && !EqualFold(rest[0], "admin")
  {
    hide EqualFold, Strip, BaseSegments, Proper, WithoutLeading;
    var base, front, last := BaseSegments(sanitized), rest[..|rest| - 1], rest[|rest| - 1];
    assert Proper(last);
    ProperIsKept(base + front, last);
    assert base + front + [last] == base + rest;
    SlashFreeBase(sanitized);
    if sanitized == ".." {
      DotsStrip(rest);
    } else {
      StripTakesProper(sanitized, rest);
      AdminLeads(rest);
    }
  }

  lemma ProperIsKept(front: seq<string>, seg: string)
    requires Proper(seg)
    ensures Push(front, seg) == front + [seg]
  {
  }

  lemma AdminLeads(rest: seq<string>)
    requires rest != []
    ensures WithoutLeading(rest, ["admin"]) == rest <==> !EqualFold(rest[0], "admin")
  {
    hide EqualFold;
  }

  /** For any prefix and any route: adding the prefix twice is adding it once exactly when the round trip holds. */
  lemma PathIsIdempotentIff(route: string, prefix: string)
    ensures APIPath(APIPath(route, prefix), prefix) == APIPath(route, prefix)
            <==> Normalize(APIPath(route, prefix), prefix) == Normalize(route, prefix)
  {
    hide SanitizePrefix, Normalize;
    var n, n' := Normalize(route, prefix), Normalize(APIPath(route, prefix), prefix);
    var sanitized := SanitizePrefix(prefix);
    var base := "/api/v1" + if sanitized != "" then "/" + sanitized else "";
    NormalizedIsRooted(route, prefix);
    NormalizedIsRooted(APIPath(route, prefix), prefix);
    AppendIsInjective(base, TrimPrefix(n), TrimPrefix(n'));
  }

  lemma NormalizedIsRooted(route: string, prefix: string)
    ensures var n := Normalize(route, prefix); n != "" && n[0] == '/' && n == "/" + TrimPrefix(n)
  {
    hide SanitizePrefix, Segments, Strip;
  }

  lemma AppendIsInjective(base: string, a: string, b: string)
    ensures (if a == "" then base else base + "/" + a) == (if b == "" then base else base + "/" + b) <==> a == b
  {
    if a != "" && b != "" && base + "/" + a == base + "/" + b {
      assert a == (base + "/" + a)[|base| + 1..] == (base + "/" + b)[|base| + 1..] == b;
    }
  }
}
