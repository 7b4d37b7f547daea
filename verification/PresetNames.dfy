/**
 Preset names: the sanitizer of main/preset_store.cpp, the case-insensitive comparison
 the store uses, and the collision-free name search of main/preset_service.cpp.
 */
module PresetNames {
  import opened RcTypes

  const MAX_NAME := 23

  // ----- Sanitizing -----

  predicate IsSpace(c: char) {
    c == ' ' || 9 <= c as int <= 13
  }

  function TrimLeft(s: string): string {
    if s != "" && IsSpace(s[0]) then TrimLeft(s[1..]) else s
  }

  function TrimRight(s: string): string {
    if s != "" && IsSpace(s[|s| - 1]) then TrimRight(s[..|s| - 1]) else s
  }

  function Trim(s: string): string {
    TrimRight(TrimLeft(s))
  }

  predicate Allowed(c: char) {
    'a' <= c <= 'z' || 'A' <= c <= 'Z' || '0' <= c <= '9' || c == '_' || c == '-'
  }

  function Keep(c: char): (r: string) {
    if Allowed(c) then [c] else if c == ' ' then "_" else ""
  }

  function Clean(s: string): string {
    if s == "" then "" else Keep(s[0]) + Clean(s[1..])
  }

  function Cut(s: string): string {
    if |s| <= MAX_NAME then s else s[..MAX_NAME]
  }

  function Sanitize(s: string): string {
    var cut := Cut(Clean(Trim(s)));
    if cut == "" then "preset" else cut
  }

  /** What the store accepts as a stored name. */
  predicate IsCleanName(s: string) {
    1 <= |s| <= MAX_NAME && AllAllowed(s)
  }

  predicate AllAllowed(s: string) {
    forall i | 0 <= i < |s| :: Allowed(s[i])
  }

  lemma {:induction false} CleanConcat(a: string, b: string)
    ensures Clean(a + b) == Clean(a) + Clean(b)
    decreases |a|
  {
    if a == "" {
      assert a + b == b;
    } else {
      assert (a + b)[1..] == a[1..] + b;
      CleanConcat(a[1..], b);
    }
  }

  /** sanitizePresetName: stopping the scan at 23 characters equals cleaning all and cutting. */
  method SanitizePresetName(text: string) returns (out: string)
    ensures out == Sanitize(text)
  {
    var s := Trim(text);
    out := "";
    var i := 0;
    while i < |s| && |out| < MAX_NAME
      invariant 0 <= i <= |s| && |out| <= MAX_NAME
      invariant out == Clean(s[..i])
    {
      var c := s[i];
      assert s[..i + 1] == s[..i] + [c];
      CleanConcat(s[..i], [c]);
      assert Clean([c]) == Keep(c) + Clean([c][1..]);
      if Allowed(c) {
        out := out + [c];
      } else if c == ' ' {
        out := out + "_";
      }
      i := i + 1;
    }
    assert s == s[..i] + s[i..];
    CleanConcat(s[..i], s[i..]);
    assert i == |s| ==> Clean(s[i..]) == "";
    if out == "" {
      out := "preset";
    }
  }

  lemma {:induction false} CleanIsAllowed(s: string)
    ensures AllAllowed(Clean(s))
    decreases |s|
  {
    if s != "" {
      CleanIsAllowed(s[1..]);
    }
  }

  lemma {:induction false} CleanFixes(s: string)
    requires AllAllowed(s)
    ensures Clean(s) == s
    decreases |s|
  {
    if s != "" {
      assert AllAllowed(s[1..]) by {
        forall i | 0 <= i < |s| - 1 ensures Allowed(s[1..][i]) {
          assert s[1..][i] == s[i + 1];
        }
      }
      CleanFixes(s[1..]);
    }
  }

  lemma SanitizeIsClean(s: string)
    ensures IsCleanName(Sanitize(s))
  {
    CleanIsAllowed(Trim(s));
  }

  /** The sanitizer's fixed points are exactly the clean names. */
  lemma SanitizeFixedPoints(s: string)
    ensures Sanitize(s) == s <==> IsCleanName(s)
  {
    SanitizeIsClean(s);
    if IsCleanName(s) {
      assert Allowed(s[0]) && Allowed(s[|s| - 1]);
      assert Trim(s) == s;
      CleanFixes(s);
    }
  }

  lemma SanitizeIsIdempotent(s: string)
    ensures Sanitize(Sanitize(s)) == Sanitize(s)
  {
    SanitizeIsClean(s);
    SanitizeFixedPoints(Sanitize(s));
  }

  /** Text of allowed characters is only ever cut. */
  lemma SanitizeCuts(s: string)
    requires s != "" && AllAllowed(s)
    ensures Sanitize(s) == Cut(s)
  {
    assert Allowed(s[0]) && Allowed(s[|s| - 1]);
    assert Trim(s) == s;
    CleanFixes(s);
  }

  function Underscored(c: char): char {
    if c == ' ' then '_' else c
  }

  lemma {:induction false} CleanKeepsPositions(s: string)
    requires forall i | 0 <= i < |s| :: Allowed(s[i]) || s[i] == ' '
    ensures |Clean(s)| == |s| && forall i | 0 <= i < |s| :: Clean(s)[i] == Underscored(s[i])
    decreases |s|
  {
    if s != "" {
      CleanKeepsPositions(s[1..]);
      assert forall i | 1 <= i < |s| :: s[i] == s[1..][i - 1];
    }
  }

  /** A short name of allowed characters and inner spaces only has its spaces replaced. */
  lemma SpacesBecomeUnderscores(s: string)
    requires 1 <= |s| <= MAX_NAME && s[0] != ' ' && s[|s| - 1] != ' '
    requires forall i | 0 <= i < |s| :: Allowed(s[i]) || s[i] == ' '
    ensures |Sanitize(s)| == |s| && forall i | 0 <= i < |s| :: Sanitize(s)[i] == Underscored(s[i])
  {
    assert Allowed(s[0]) && Allowed(s[|s| - 1]);
    assert Trim(s) == s;
    CleanKeepsPositions(s);
  }

  // ----- Case-insensitive comparison -----

  function Lower(c: char): char {
    if 'A' <= c <= 'Z' then (c as int + 32) as char else c
  }

  function Fold(s: string): (r: string)
    ensures |r| == |s|
    ensures forall i | 0 <= i < |s| :: r[i] == Lower(s[i])
  {
    seq(|s|, i requires 0 <= i < |s| => Lower(s[i]))
  }

  /** String::equalsIgnoreCase */
  predicate SameName(a: string, b: string) {
    Fold(a) == Fold(b)
  }

  /** The same character, or the two cases of one letter. */
  predicate SameLetter(c: char, d: char) {
    || c == d
    || ('a' <= c <= 'z' && d as int == c as int - 32)
    || ('a' <= d <= 'z' && c as int == d as int - 32)
  }

  /** The two texts differ in the case of letters only. */
  predicate DiffersInCaseOnly(a: string, b: string) {
    |a| == |b| && forall i | 0 <= i < |a| :: SameLetter(a[i], b[i])
  }

  lemma LowerIffSameLetter(c: char, d: char)
    ensures Lower(c) == Lower(d) <==> SameLetter(c, d)
  {}

  /** Two names are the same to the store exactly when they differ in letter case only. */
  lemma SameNameIff(a: string, b: string)
    ensures SameName(a, b) <==> DiffersInCaseOnly(a, b)
  {
    forall i | 0 <= i < |a| && i < |b|
      ensures Lower(a[i]) == Lower(b[i]) <==> SameLetter(a[i], b[i])
    {
      LowerIffSameLetter(a[i], b[i]);
    }
    hide Lower, SameLetter;
    if DiffersInCaseOnly(a, b) {
      assert Fold(a) == Fold(b);
    }
    if Fold(a) == Fold(b) {
      assert forall i | 0 <= i < |a| :: Fold(a)[i] == Fold(b)[i];
    }
  }

  // ----- The sanitizer and letter case -----

  lemma {:induction false} TrimKeepsCase(a: string, b: string)
    requires DiffersInCaseOnly(a, b)
    ensures DiffersInCaseOnly(TrimLeft(a), TrimLeft(b)) && DiffersInCaseOnly(TrimRight(a), TrimRight(b))
    decreases |a|
  {
    if a != "" {
      assert SameLetter(a[0], b[0]) && SameLetter(a[|a| - 1], b[|a| - 1]);
      TrimKeepsCase(a[1..], b[1..]);
      TrimKeepsCase(a[..|a| - 1], b[..|b| - 1]);
    }
  }

  lemma {:induction false} CleanKeepsCase(a: string, b: string)
    requires DiffersInCaseOnly(a, b)
    ensures DiffersInCaseOnly(Clean(a), Clean(b))
    decreases |a|
  {
    if a != "" {
      CleanKeepsCase(a[1..], b[1..]);
      assert SameLetter(a[0], b[0]);
      assert DiffersInCaseOnly(Keep(a[0]), Keep(b[0]));
      JoinKeepsCase(Keep(a[0]), Keep(b[0]), Clean(a[1..]), Clean(b[1..]));
    }
  }

  lemma JoinKeepsCase(a: string, b: string, c: string, d: string)
    requires DiffersInCaseOnly(a, b) && DiffersInCaseOnly(c, d)
    ensures DiffersInCaseOnly(a + c, b + d)
  {
    hide SameLetter;
  }

  /** Spellings that differ in letter case only sanitize to names that do. */
  lemma SanitizeKeepsCase(a: string, b: string)
    requires DiffersInCaseOnly(a, b)
    ensures DiffersInCaseOnly(Sanitize(a), Sanitize(b))
  {
    TrimKeepsCase(a, b);
    TrimKeepsCase(TrimLeft(a), TrimLeft(b));
    CleanKeepsCase(Trim(a), Trim(b));
    hide Clean, TrimLeft, TrimRight, SameLetter;
    assert forall c: string, d: string | DiffersInCaseOnly(c, d) :: DiffersInCaseOnly(Cut(c), Cut(d));
    assert DiffersInCaseOnly("preset", "preset") by {
      forall i | 0 <= i < 6 ensures SameLetter("preset"[i], "preset"[i]) {
        LowerIffSameLetter("preset"[i], "preset"[i]);
      }
    }
  }

  // ----- What the sanitizer drops -----

  lemma {:induction false} TrimDrops(s: string, c: char)
    requires IsSpace(c)
    ensures TrimLeft([c] + s) == TrimLeft(s) && TrimRight(s + [c]) == TrimRight(s)
  {
    assert ([c] + s)[1..] == s && (s + [c])[..|s|] == s;
  }

  lemma {:induction false} TrimBothDrops(s: string, c: char)
    requires IsSpace(c)
    ensures TrimRight(TrimLeft(s + [c])) == TrimRight(TrimLeft(s))
    decreases |s|
  {
    if s == "" {
      assert s + [c] == [c] && [c][1..] == "";
    } else if IsSpace(s[0]) {
      assert (s + [c])[1..] == s[1..] + [c];
      TrimBothDrops(s[1..], c);
    } else {
      TrimDrops(s, c);
    }
  }

  /** White space around a name (space, tab, line feed, vertical tab, form feed, return) makes no difference. */
  lemma OuterSpaceIsDropped(s: string, c: char)
    requires c == ' ' || c as int in {9, 10, 11, 12, 13}
    ensures Sanitize([c] + s) == Sanitize(s) && Sanitize(s + [c]) == Sanitize(s)
  {
    TrimDrops(s, c);
    TrimBothDrops(s, c);
    hide Clean, Cut, TrimLeft, TrimRight;
  }

  /** A character that is neither allowed nor a space makes no difference between two others that are not white space. */
  lemma OtherCharactersAreDropped(a: string, c: char, b: string)
    requires !Allowed(c) && c != ' '
    requires a != "" && b != "" && !IsSpace(a[0]) && !IsSpace(b[|b| - 1])
    ensures Sanitize(a + [c] + b) == Sanitize(a + b)
  {
    var s, t := a + [c] + b, a + b;
    assert s[0] == a[0] && s[|s| - 1] == b[|b| - 1] && t[0] == a[0] && t[|t| - 1] == b[|b| - 1];
    assert Trim(s) == s && Trim(t) == t;
    CleanConcat(a, b);
    CleanConcat(a + [c], b);
    CleanConcat(a, [c]);
    assert Clean([c]) == Keep(c) + Clean([c][1..]);
    assert Clean(a) + [] == Clean(a);
  }

  /** A name of allowed characters keeps its first 23, and nothing becomes "preset". */
  lemma SanitizeKeepsFront(s: string)
    requires AllAllowed(s)
    ensures s == "" ==> Sanitize(s) == "preset"
    ensures 1 <= |s| <= 23 ==> Sanitize(s) == s
    ensures |s| > 23 ==> |Sanitize(s)| == 23 && forall i | 0 <= i < 23 :: Sanitize(s)[i] == s[i]
  {
    if s != "" {
      SanitizeCuts(s);
    }
  }

  /** The characters a name may hold. */
  lemma AllowedIff(c: char)
    ensures Allowed(c) <==>
            var code := c as int;
            97 <= code <= 122 || 65 <= code <= 90 || 48 <= code <= 57 || code == 95 || code == 45
  {}

  // ----- The first matching slot -----

  function FindSlot(names: seq<string>, name: string): (r: int)
    ensures -1 <= r < |names|
    ensures r >= 0 ==> SameName(names[r], name) && forall j | 0 <= j < r :: !SameName(names[j], name)
    ensures r < 0 ==> forall j | 0 <= j < |names| :: !SameName(names[j], name)
  {
    if names == [] then -1
    else if SameName(names[0], name) then 0
    else
      var r := FindSlot(names[1..], name);
      assert forall j | 1 <= j < |names| :: names[j] == names[1..][j - 1];
      if r < 0 then -1 else r + 1
  }

  predicate Taken(names: seq<string>, raw: string) {
    FindSlot(names, Sanitize(raw)) >= 0
  }

  // ----- Collision-free names -----

  function Digit(n: nat): char
    requires n < 10
  {
    ('0' as int + n) as char
  }

  function Decimal(n: nat): (r: string)
    ensures r != "" && AllAllowed(r)
    ensures n < 10 ==> r == [Digit(n)]
  {
    if n < 10 then [Digit(n)] else Decimal(n / 10) + [Digit(n % 10)]
  }

  /** The number a string of digits stands for. */
  function DigitsValue(s: string): int {
    if s == "" then 0 else 10 * DigitsValue(s[..|s| - 1]) + (s[|s| - 1] as int - '0' as int)
  }

  /** A suffix is the number in decimal, without leading zeros. */
  lemma {:induction false} DecimalIsItsNumber(n: nat)
    ensures DigitsValue(Decimal(n)) == n
    ensures forall i | 0 <= i < |Decimal(n)| :: '0' <= Decimal(n)[i] <= '9'
    ensures n > 0 ==> Decimal(n)[0] != '0'
    decreases n
  {
    if n >= 10 {
      DecimalIsItsNumber(n / 10);
      assert Decimal(n)[..|Decimal(n)| - 1] == Decimal(n / 10);
    } else {
      assert Decimal(n)[..0] == "";
    }
  }

  function Candidate(base: string, i: nat): string {
    base + "_" + Decimal(i)
  }

  /** The first free candidate from suffix `i` on, and the clock-based fallback after suffix 99. */
  function NextFrom(names: seq<string>, base: string, millis: nat, i: nat): string
    requires 2 <= i <= 100
    decreases 100 - i
  {
    if i == 100 then Candidate(base, millis % 1000)
    else if !Taken(names, Candidate(base, i)) then Candidate(base, i)
    else NextFrom(names, base, millis, i + 1)
  }

  function NextName(names: seq<string>, raw: string, millis: nat): string {
    var base := Sanitize(raw);
    if !Taken(names, base) then base else NextFrom(names, base, millis, 2)
  }

  // ----- Pigeonhole -----

  function FoldAll(names: seq<string>): (r: set<string>)
    ensures forall s :: s in r <==> exists j :: 0 <= j < |names| && Fold(names[j]) == s
    ensures |r| <= |names|
  {
    if names == [] then {}
    else
      var rest := FoldAll(names[1..]);
      assert forall j | 1 <= j < |names| :: names[j] == names[1..][j - 1];
      assert forall j | 0 <= j < |names| - 1 :: names[1..][j] == names[j + 1];
      rest + {Fold(names[0])}
  }

  predicate AllDistinct(s: seq<string>) {
    forall i, j | 0 <= i < j < |s| :: s[i] != s[j]
  }

  lemma {:induction false} DistinctFits(s: seq<string>, bound: set<string>)
    requires AllDistinct(s) && forall i | 0 <= i < |s| :: s[i] in bound
    ensures |s| <= |bound|
    decreases |s|
  {
    if s != [] {
      DistinctFits(s[1..], bound - {s[0]});
    }
  }

  lemma SuffixesDiffer(base: string, i: nat, j: nat)
    requires 2 <= i < j <= 9
    ensures Fold(Candidate(base, i)) != Fold(Candidate(base, j)) && Fold(Candidate(base, i)) != Fold(base)
    ensures Fold(Candidate(base, j)) != Fold(base)
  {
    var n := |base|;
    assert |Candidate(base, i)| == n + 2 && |Candidate(base, j)| == n + 2;
    assert Fold(Candidate(base, i))[n + 1] == Digit(i) && Fold(Candidate(base, j))[n + 1] == Digit(j);
  }

  lemma CandidateIsAllowed(base: string, i: nat)
    requires AllAllowed(base)
    ensures AllAllowed(Candidate(base, i))
  {
    var d := Decimal(i);
    forall k | 0 <= k < |Candidate(base, i)| ensures Allowed(Candidate(base, i)[k]) {
      if k > |base| {
        assert Candidate(base, i)[k] == d[k - |base| - 1];
      }
    }
  }

  /** A short suffix of a short base survives the sanitizer, so being taken puts its fold among the names'. */
  lemma TakenCandidateIsFolded(names: seq<string>, base: string, i: nat)
    requires AllAllowed(base) && |base| <= 21 && 2 <= i <= 9
    ensures IsCleanName(Candidate(base, i)) && Sanitize(Candidate(base, i)) == Candidate(base, i)
    ensures Taken(names, Candidate(base, i)) ==> Fold(Candidate(base, i)) in FoldAll(names)
  {
    CandidateIsAllowed(base, i);
    SanitizeFixedPoints(Candidate(base, i));
  }

  /** The folds of a base and its eight one-digit suffixes. */
  function ShortFolds(base: string): (r: seq<string>)
    ensures |r| == 9
  {
    seq(9, i requires 0 <= i < 9 => if i == 0 then Fold(base) else Fold(Candidate(base, i + 1)))
  }

  lemma ShortFoldsDiffer(base: string)
    ensures AllDistinct(ShortFolds(base))
  {
    hide Candidate, Fold;
    var c := ShortFolds(base);
    forall i, j | 0 <= i < j < 9
      ensures c[i] != c[j]
    {
      if i > 0 {
        SuffixesDiffer(base, i + 1, j + 1);
      } else if j == 1 {
        SuffixesDiffer(base, 2, 3);
      } else {
        SuffixesDiffer(base, 2, j + 1);
      }
    }
  }

  /** Eight names cannot cover a base of at most 21 characters and its eight one-digit suffixes. */
  lemma OneSuffixIsFree(names: seq<string>, base: string)
    requires |names| <= MAX_USER_PRESETS
    requires IsCleanName(base) && |base| <= 21
    requires Taken(names, base)
    ensures exists i | 2 <= i <= 9 :: !Taken(names, Candidate(base, i))
  {
    assert Fold(base) in FoldAll(names) by {
      SanitizeFixedPoints(base);
    }
    hide Taken, Candidate, Fold, FoldAll, Sanitize;
    if forall i | 2 <= i <= 9 :: Taken(names, Candidate(base, i)) {
      var c := ShortFolds(base);
      forall i | 0 <= i < 9
        ensures c[i] in FoldAll(names)
      {
        if i > 0 {
          TakenCandidateIsFolded(names, base, i + 1);
        }
      }
      ShortFoldsDiffer(base);
      DistinctFits(c, FoldAll(names));
      assert false;
    }
  }

  lemma {:induction false} NextFromFindsFree(names: seq<string>, base: string, millis: nat, i: nat, free: nat)
    requires 2 <= i <= free <= 99 && !Taken(names, Candidate(base, free))
    ensures exists k | i <= k <= free :: NextFrom(names, base, millis, i) == Candidate(base, k) && !Taken(names, Candidate(base, k))
    decreases free - i
  {
    hide Taken, Candidate;
    if Taken(names, Candidate(base, i)) {
      NextFromFindsFree(names, base, millis, i + 1, free);
    } else {
      assert NextFrom(names, base, millis, i) == Candidate(base, i);
    }
  }

  /** For a base of at most 21 characters the search ends on the base or one of base_2 .. base_9. */
  lemma ShortBaseGetsShortSuffix(names: seq<string>, raw: string, millis: nat)
    requires |names| <= MAX_USER_PRESETS && |Sanitize(raw)| <= 21
    ensures var r := NextName(names, raw, millis);
            && IsCleanName(r) && !Taken(names, r)
            && (r == Sanitize(raw) || exists k | 2 <= k <= 9 :: r == Candidate(Sanitize(raw), k))
  {
    var base := Sanitize(raw);
    SanitizeIsClean(raw);
    if Taken(names, base) {
      OneSuffixIsFree(names, base);
      var free :| 2 <= free <= 9 && !Taken(names, Candidate(base, free));
      NextFromFindsFree(names, base, millis, 2, free);
      var k :| 2 <= k <= free && NextFrom(names, base, millis, 2) == Candidate(base, k) && !Taken(names, Candidate(base, k));
      CandidateIsAllowed(base, k);
    }
  }

  /** Suffixes do not survive the cut when the base is 22 or 23 characters long. */
  lemma LongSuffixIsCut(base: string, i: nat)
    requires IsCleanName(base) && |base| >= 22
    ensures Sanitize(Candidate(base, i)) == if |base| == 22 then base + "_" else base
  {
    CandidateIsAllowed(base, i);
    SanitizeCuts(Candidate(base, i));
    assert Candidate(base, i)[..23] == if |base| == 22 then base + "_" else base;
  }

  lemma {:induction false} NextFromIsCandidate(names: seq<string>, base: string, millis: nat, i: nat)
    requires 2 <= i <= 100
    ensures exists k: nat :: NextFrom(names, base, millis, i) == Candidate(base, k)
    decreases 100 - i
  {
    hide Taken, Candidate;
    if i < 100 && Taken(names, Candidate(base, i)) {
      NextFromIsCandidate(names, base, millis, i + 1);
    } else {
      var k := if i == 100 then millis % 1000 else i;
      assert NextFrom(names, base, millis, i) == Candidate(base, k);
    }
  }

  /**
   The header promises a collision-free name. It is one if and only if the suffix survives
   the 23-character cut, or the base (or, at 22 characters, the base with an underscore) is free.
   */
  lemma NextNameIsFreeIff(names: seq<string>, raw: string, millis: nat)
    requires |names| <= MAX_USER_PRESETS
    ensures !Taken(names, NextName(names, raw, millis)) <==>
            || |Sanitize(raw)| <= 21
            || !Taken(names, Sanitize(raw))
            || (|Sanitize(raw)| == 22 && !Taken(names, Sanitize(raw) + "_"))
  {
    var base := Sanitize(raw);
    SanitizeIsClean(raw);
    hide Sanitize, NextFrom, Taken;
    if |base| <= 21 {
      ShortBaseGetsShortSuffix(names, raw, millis);
    } else if Taken(names, base) {
      LongBaseFreeIff(names, base, millis);
    }
  }

  lemma LongBaseFreeIff(names: seq<string>, base: string, millis: nat)
    requires IsCleanName(base) && |base| >= 22 && Taken(names, base)
    ensures !Taken(names, NextFrom(names, base, millis, 2)) <==> (|base| == 22 && !Taken(names, base + "_"))
  {
    hide Sanitize, NextFrom, Candidate, FindSlot;
    NextFromIsCandidate(names, base, millis, 2);
    var k: nat :| NextFrom(names, base, millis, 2) == Candidate(base, k);
    LongSuffixIsCut(base, k);
    SanitizeFixedPoints(base);
    if |base| == 22 {
      SanitizeFixedPoints(base + "_");
    }
  }

  /** The suggested name can be taken: the suffix of a stored 23-character name is cut off again. */
  lemma SuggestionCanBeTaken()
    ensures var name := "aaaaaaaaaaaaaaaaaaaaaaa";
            Taken([name], NextName([name], name, 0))
  {
    var name := "aaaaaaaaaaaaaaaaaaaaaaa";
    SanitizeFixedPoints(name);
    hide Sanitize, NextFrom, Fold;
    assert Taken([name], name);
    NextNameIsFreeIff([name], name, 0);
  }
}
