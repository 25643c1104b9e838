/**
 * The rotation rewrite of a log file name. `reg` (`_\d{1,}\.?[^\\/]*?$`)
 * selects the suffix that starts at the leftmost `_` followed by a digit
 * after which no `/` or `\` occurs; inside that suffix `reg2` (`\d{1,}`)
 * replaces every maximal run of digits by its successor.
 */
module FileName {
  import opened Wrappers
  import opened Decimal

  /** Neither separator occurs in `s`: the class `[^\\/]` accepts all of it. */
  predicate SlashFree(s: string) {
    '/' !in s && '\\' !in s
  }

  /** `reg` matches `p` from index `i` to the end of `p`. */
  predicate MatchesAt(p: string, i: nat) {
    i + 1 < |p| && p[i] == '_' && IsDigit(p[i + 1]) && SlashFree(p[i..])
  }

  /** The leftmost start at or after `from` where `reg` matches. */
  function FindMatch(p: string, from: nat): (r: Option<nat>)
    requires from <= |p|
    ensures r.Some? ==> from <= r.value && MatchesAt(p, r.value)
    ensures r.Some? ==> forall j: nat :: from <= j < r.value ==> !MatchesAt(p, j)
    ensures r.None? ==> forall j: nat :: from <= j ==> !MatchesAt(p, j)
    decreases |p| - from
  {
    if from == |p| then None
    else if MatchesAt(p, from) then Some(from)
    else FindMatch(p, from + 1)
  }

  predicate HasMatch(p: string) {
    FindMatch(p, 0).Some?
  }

  function MatchStart(p: string): nat
    requires HasMatch(p)
  {
    FindMatch(p, 0).value
  }

  /** The text `reg` matches: from the leftmost matching `_` to the end. */
  function Suffix(p: string): string
    requires HasMatch(p)
  {
    p[MatchStart(p)..]
  }

  /** A match at `k` with no match before it is the one `FindMatch` finds. */
  lemma LeftmostMatch(p: string, k: nat)
    requires MatchesAt(p, k)
    requires forall j: nat :: j < k ==> !MatchesAt(p, j)
    ensures HasMatch(p) && MatchStart(p) == k
  {
  }

  /** The length of the run of digits `s` starts with. */
  function LeadingDigits(s: string): (k: nat)
    ensures k <= |s| && AllDigits(s[..k])
    ensures k < |s| ==> !IsDigit(s[k])
    decreases |s|
  {
    if s != [] && IsDigit(s[0]) then
      var k := 1 + LeadingDigits(s[1..]);
      assert s[..k] == [s[0]] + s[1..][..k - 1];
      k
    else 0
  }

  /** `reg2.ReplaceAllFunc`: every maximal run of digits `d` becomes `Bump(d)`. */
  function IncrementRuns(s: string): (r: string)
    ensures r == [] <==> s == []
    ensures s != [] && !IsDigit(s[0]) ==> r[0] == s[0]
    decreases |s|
  {
    if s == [] then []
    else if IsDigit(s[0]) then
      var k := LeadingDigits(s);
      Bump(s[..k]) + IncrementRuns(s[k..])
    else [s[0]] + IncrementRuns(s[1..])
  }

  /** The values of the maximal runs of digits in `s`, left to right. */
  function RunValues(s: string): seq<nat>
    decreases |s|
  {
    if s == [] then []
    else if IsDigit(s[0]) then
      var k := LeadingDigits(s);
      [Value(s[..k])] + RunValues(s[k..])
    else RunValues(s[1..])
  }

  /** One piece of a string as `reg2` sees it: a maximal run of digits, or any other character. */
  datatype Piece = Run | Other(c: char)

  /** The layout of `s`: every maximal run of digits collapsed to one `Run`, every other character kept. */
  function Collapse(s: string): seq<Piece>
    decreases |s|
  {
    if s == [] then []
    else if IsDigit(s[0]) then [Run] + Collapse(s[LeadingDigits(s)..])
    else [Other(s[0])] + Collapse(s[1..])
  }

  /** The texts of the maximal runs of digits in `s`, left to right. */
  function RunTexts(s: string): seq<string>
    decreases |s|
  {
    if s == [] then []
    else if IsDigit(s[0]) then
      var k := LeadingDigits(s);
      [s[..k]] + RunTexts(s[k..])
    else RunTexts(s[1..])
  }

  predicate AllBelow(vs: seq<nat>, bound: int) {
    forall i :: 0 <= i < |vs| ==> vs[i] < bound
  }

  /** The next file name: the matched suffix has its digit runs incremented; without a match the name stays. */
  function NextName(p: string): (r: string)
    ensures !HasMatch(p) ==> r == p
    ensures HasMatch(p) ==> MatchStart(p) <= |r| && r[..MatchStart(p)] == p[..MatchStart(p)]
  {
    match FindMatch(p, 0)
    case None => p
    case Some(k) => p[..k] + IncrementRuns(p[k..])
  }

  /** The rotation ordinal: the number right after the matching `_`. */
  function Ordinal(p: string): nat
    requires HasMatch(p)
  {
    var s := Suffix(p);
    assert s[0] == '_' && IsDigit(s[1]);
    assert RunValues(s) == RunValues(s[1..]);
    RunValues(s)[0]
  }

  /** A non-digit character occurs in a string exactly when it is one of the pieces of its layout. */
  lemma {:induction false} InCollapse(c: char, s: string)
    requires !IsDigit(c)
    ensures c in s <==> Other(c) in Collapse(s)
    decreases |s|
  {
    if s != [] {
      if IsDigit(s[0]) {
        var k := LeadingDigits(s);
        LeadingRunSplit(s, k);
        InCollapse(c, s[k..]);
        assert c !in s[..k];
        assert Collapse(s) == [Run] + Collapse(s[k..]);
      } else {
        assert s == [s[0]] + s[1..];
        InCollapse(c, s[1..]);
      }
    }
  }

  /** A run of digits followed by a non-digit (or nothing) is the leading run of the whole. */
  lemma LeadingRunOf(d: string, u: string)
    requires |d| >= 1 && AllDigits(d)
    requires u != [] ==> !IsDigit(u[0])
    ensures var s := d + u;
      LeadingDigits(s) == |d| && s[..|d|] == d && s[|d|..] == u
  {
    var s := d + u;
    var k := LeadingDigits(s);
    assert forall i :: 0 <= i < |d| ==> s[i] == d[i];
    assert u != [] ==> s[|d|] == u[0];
    assert forall i :: 0 <= i < k ==> s[..k][i] == s[i];
    assert k == |d|;
    assert s[..k] == d && s[k..] == u;
  }

  /** A run of digits followed by a non-digit (or nothing) is one maximal run. */
  lemma RunValuesAfterRun(d: string, u: string)
    requires |d| >= 1 && AllDigits(d)
    requires u != [] ==> !IsDigit(u[0])
    ensures RunValues(d + u) == [Value(d)] + RunValues(u)
  {
    LeadingRunOf(d, u);
  }

  lemma CollapseAfterRun(d: string, u: string)
    requires |d| >= 1 && AllDigits(d)
    requires u != [] ==> !IsDigit(u[0])
    ensures Collapse(d + u) == [Run] + Collapse(u)
  {
    LeadingRunOf(d, u);
  }

  lemma RunTextsAfterRun(d: string, u: string)
    requires |d| >= 1 && AllDigits(d)
    requires u != [] ==> !IsDigit(u[0])
    ensures RunTexts(d + u) == [d] + RunTexts(u)
  {
    LeadingRunOf(d, u);
  }

  lemma RunValuesAfterOther(c: char, u: string)
    requires !IsDigit(c)
    ensures RunValues([c] + u) == RunValues(u)
  {
    assert ([c] + u)[1..] == u;
  }

  lemma CollapseAfterOther(c: char, u: string)
    requires !IsDigit(c)
    ensures Collapse([c] + u) == [Other(c)] + Collapse(u)
  {
    assert ([c] + u)[1..] == u;
  }

  lemma RunTextsAfterOther(c: char, u: string)
    requires !IsDigit(c)
    ensures RunTexts([c] + u) == RunTexts(u)
  {
    assert ([c] + u)[1..] == u;
  }

  /** A run of digits followed by a non-digit (or nothing) is rewritten as one run. */
  lemma IncrementRunsAfterRun(d: string, u: string)
    requires |d| >= 1 && AllDigits(d)
    requires u != [] ==> !IsDigit(u[0])
    ensures IncrementRuns(d + u) == Bump(d) + IncrementRuns(u)
  {
    LeadingRunOf(d, u);
  }

  lemma IncrementRunsAfterOther(c: char, u: string)
    requires !IsDigit(c)
    ensures IncrementRuns([c] + u) == [c] + IncrementRuns(u)
  {
    assert ([c] + u)[1..] == u;
  }

  /** The run values of `s`, each one larger. */
  function Successors(vs: seq<nat>): (r: seq<nat>)
    ensures |r| == |vs| && forall i :: 0 <= i < |vs| ==> r[i] == vs[i] + 1
  {
    seq(|vs|, i requires 0 <= i < |vs| => vs[i] + 1)
  }

  /** `strconv.Itoa` applied to each number. */
  function Printed(vs: seq<nat>): (r: seq<string>)
    ensures |r| == |vs| && forall i :: 0 <= i < |vs| ==> r[i] == Itoa(vs[i])
  {
    seq(|vs|, i requires 0 <= i < |vs| => Itoa(vs[i]))
  }

  lemma PrintedCons(v: nat, vs: seq<nat>)
    ensures Printed([v] + vs) == [Itoa(v)] + Printed(vs)
  {
  }

  /** A string that starts with a digit splits into its leading run and a rest that starts with no digit. */
  lemma LeadingRunSplit(s: string, k: nat)
    requires s != [] && IsDigit(s[0]) && k == LeadingDigits(s)
    ensures 1 <= k && s == s[..k] + s[k..]
    ensures s[k..] != [] ==> !IsDigit(s[k..][0])
  {
    assert s[..k] + s[k..] == s;
    assert s[k..] != [] ==> s[k..][0] == s[k];
  }

  lemma RunValuesLeadingRun(s: string, k: nat)
    requires s != [] && IsDigit(s[0]) && k == LeadingDigits(s)
    ensures RunValues(s) == [Value(s[..k])] + RunValues(s[k..])
  {
  }

  lemma CollapseLeadingRun(s: string, k: nat)
    requires s != [] && IsDigit(s[0]) && k == LeadingDigits(s)
    ensures Collapse(s) == [Run] + Collapse(s[k..])
  {
  }

  lemma RunTextsLeadingRun(s: string, k: nat)
    requires s != [] && IsDigit(s[0]) && k == LeadingDigits(s)
    ensures RunTexts(s) == [s[..k]] + RunTexts(s[k..])
  {
  }

  lemma IncrementRunsLeadingRun(s: string, k: nat)
    requires s != [] && IsDigit(s[0]) && k == LeadingDigits(s)
    ensures IncrementRuns(s) == Bump(s[..k]) + IncrementRuns(s[k..])
  {
  }

  /** The leading run of a string that starts with a digit, and what both recursions make of it. */
  lemma LeadingRun(s: string)
    requires s != [] && IsDigit(s[0])
    ensures var k := LeadingDigits(s);
      && 1 <= k
      && s == s[..k] + s[k..]
      && (s[k..] != [] ==> !IsDigit(s[k..][0]))
      && RunValues(s) == [Value(s[..k])] + RunValues(s[k..])
      && IncrementRuns(s) == Bump(s[..k]) + IncrementRuns(s[k..])
  {
    var k := LeadingDigits(s);
    LeadingRunSplit(s, k);
    RunValuesLeadingRun(s, k);
    IncrementRunsLeadingRun(s, k);
  }

  /** The rewrite of a string that starts with a non-digit starts with that same character. */
  lemma IncrementRunsHead(t: string)
    requires t != [] && !IsDigit(t[0])
    ensures IncrementRuns(t) == [t[0]] + IncrementRuns(t[1..])
  {
  }

  /**
   * Without 64-bit overflow, the rewrite keeps the layout: every run of
   * digits is replaced in place and every other character is kept, in order.
   */
  lemma {:induction false} IncrementRunsCollapse(s: string)
    requires AllBelow(RunValues(s), MaxInt64)
    ensures Collapse(IncrementRuns(s)) == Collapse(s)
    decreases |s|
  {
    if s == [] {
    } else if IsDigit(s[0]) {
      var k := LeadingDigits(s);
      var d, t := s[..k], s[k..];
      LeadingRunSplit(s, k);
      RunValuesLeadingRun(s, k);
      CollapseLeadingRun(s, k);
      IncrementRunsLeadingRun(s, k);
      AllBelowCons(Value(d), RunValues(t), MaxInt64);
      IncrementRunsCollapse(t);
      var u := IncrementRuns(t);
      if t != [] {
        IncrementRunsHead(t);
      }
      CollapseAfterRun(Bump(d), u);
    } else {
      IncrementRunsCollapse(s[1..]);
      CollapseAfterOther(s[0], IncrementRuns(s[1..]));
    }
  }

  /**
   * Without 64-bit overflow, each run of digits is replaced by the canonical
   * text (`strconv.Itoa`) of its value plus one.
   */
  lemma {:induction false} IncrementRunsTexts(s: string)
    requires AllBelow(RunValues(s), MaxInt64)
    ensures RunTexts(IncrementRuns(s)) == Printed(Successors(RunValues(s)))
    decreases |s|
  {
    if s == [] {
    } else if IsDigit(s[0]) {
      var k := LeadingDigits(s);
      var d, t := s[..k], s[k..];
      LeadingRunSplit(s, k);
      RunValuesLeadingRun(s, k);
      IncrementRunsLeadingRun(s, k);
      AllBelowCons(Value(d), RunValues(t), MaxInt64);
      IncrementRunsTexts(t);
      var u := IncrementRuns(t);
      if t != [] {
        IncrementRunsHead(t);
      }
      RunTextsAfterRun(Bump(d), u);
      assert Bump(d) == Itoa(Value(d) + 1);
      SuccessorsCons(Value(d), RunValues(t));
      PrintedCons(Value(d) + 1, Successors(RunValues(t)));
    } else {
      IncrementRunsTexts(s[1..]);
      RunTextsAfterOther(s[0], IncrementRuns(s[1..]));
    }
  }

  /**
   * The layout and the run texts determine a string: two strings that agree
   * on both are equal.
   */
  lemma {:induction false} PiecesDetermine(a: string, b: string)
    requires Collapse(a) == Collapse(b) && RunTexts(a) == RunTexts(b)
    ensures a == b
    decreases |a|
  {
    if a == [] {
      assert Collapse(b) == [];
    } else if IsDigit(a[0]) {
      var k := LeadingDigits(a);
      assert Collapse(b)[0] == Run;
      assert b != [] && IsDigit(b[0]);
      var m := LeadingDigits(b);
      LeadingRunSplit(a, k);
      LeadingRunSplit(b, m);
      CollapseLeadingRun(a, k);
      CollapseLeadingRun(b, m);
      RunTextsLeadingRun(a, k);
      RunTextsLeadingRun(b, m);
      assert a[..k] == RunTexts(a)[0] == b[..m];
      assert Collapse(a[k..]) == Collapse(a)[1..] == Collapse(b)[1..] == Collapse(b[m..]);
      assert RunTexts(a[k..]) == RunTexts(a)[1..] == RunTexts(b)[1..] == RunTexts(b[m..]);
      PiecesDetermine(a[k..], b[m..]);
    } else {
      assert Collapse(a)[0] == Other(a[0]);
      assert b != [] && !IsDigit(b[0]) && b[0] == a[0];
      CollapseAfterOther(a[0], a[1..]);
      CollapseAfterOther(b[0], b[1..]);
      RunTextsAfterOther(a[0], a[1..]);
      RunTextsAfterOther(b[0], b[1..]);
      assert a == [a[0]] + a[1..] && b == [b[0]] + b[1..];
      assert Collapse(a[1..]) == Collapse(a)[1..] == Collapse(b)[1..] == Collapse(b[1..]);
      PiecesDetermine(a[1..], b[1..]);
    }
  }

  lemma AllBelowCons(v: nat, vs: seq<nat>, bound: int)
    requires AllBelow([v] + vs, bound)
    ensures v < bound && AllBelow(vs, bound)
  {
    assert ([v] + vs)[0] == v;
    assert forall i :: 0 <= i < |vs| ==> vs[i] == ([v] + vs)[i + 1];
  }

  lemma SuccessorsCons(v: nat, vs: seq<nat>)
    ensures Successors([v] + vs) == [v + 1] + Successors(vs)
  {
  }

  /** Without 64-bit overflow, the rewrite increments the value of every run of digits by one. */
  lemma {:induction false} IncrementRunsValues(s: string)
    requires AllBelow(RunValues(s), MaxInt64)
    ensures RunValues(IncrementRuns(s)) == Successors(RunValues(s))
    decreases |s|
  {
    if s == [] {
    } else if IsDigit(s[0]) {
      var k := LeadingDigits(s);
      var d, t := s[..k], s[k..];
      LeadingRunSplit(s, k);
      RunValuesLeadingRun(s, k);
      IncrementRunsLeadingRun(s, k);
      AllBelowCons(Value(d), RunValues(t), MaxInt64);
      IncrementRunsValues(t);
      var u := IncrementRuns(t);
      if t != [] {
        IncrementRunsHead(t);
      }
      RunValuesAfterRun(Bump(d), u);
      SuccessorsCons(Value(d), RunValues(t));
    } else {
      IncrementRunsValues(s[1..]);
      RunValuesAfterOther(s[0], IncrementRuns(s[1..]));
    }
  }

  /**
   * The rewrite of a matched suffix is again a matched suffix: it still
   * starts with `_` and a digit and still holds no separator.
   */
  lemma RewriteKeepsMatch(s: string)
    requires MatchesAt(s, 0) && AllBelow(RunValues(s), MaxInt64)
    ensures MatchesAt(IncrementRuns(s), 0)
  {
    var u := IncrementRuns(s);
    IncrementRunsCollapse(s);
    IncrementRunsHead(s);
    assert SlashFree(u) by {
      InCollapse('/', s);
      InCollapse('/', u);
      InCollapse('\\', s);
      InCollapse('\\', u);
    }
    var s1 := s[1..];
    LeadingRun(s1);
    var k1 := LeadingDigits(s1);
    assert RunValues(s) == RunValues(s1);
    assert RunValues(s)[0] == Value(s1[..k1]);
    var b := Bump(s1[..k1]);
    assert u == [s[0]] + (b + IncrementRuns(s1[k1..]));
    assert u[1] == b[0];
  }

  /** Rewriting the suffix at the leftmost match leaves that match the leftmost one. */
  lemma NextNameKeepsMatch(p: string)
    requires HasMatch(p) && AllBelow(RunValues(Suffix(p)), MaxInt64)
    ensures var r := NextName(p);
      && HasMatch(r) && MatchStart(r) == MatchStart(p)
      && r[..MatchStart(p)] == p[..MatchStart(p)]
      && Suffix(r) == IncrementRuns(Suffix(p))
  {
    var k := MatchStart(p);
    var s := p[k..];
    var u := IncrementRuns(s);
    var r := NextName(p);
    assert MatchesAt(s, 0);
    RewriteKeepsMatch(s);
    assert r == p[..k] + u;
    assert r[k..] == u;
    assert MatchesAt(r, k);
    forall j: nat | j < k
      ensures !MatchesAt(r, j)
    {
      assert !MatchesAt(p, j);
      assert r[j..] == p[j..k] + u;
      assert p[j..] == p[j..k] + s;
    }
    LeftmostMatch(r, k);
  }

  /**
   * One rotation step on a name with a rotatable suffix and no 64-bit
   * overflow: the text before the match is kept, the match stays where it
   * was, the suffix keeps its layout (each run of digits is replaced in
   * place, every other character is kept), every run becomes the canonical
   * text of its value plus one, and in particular the ordinal grows by one,
   * so the name changes. By `PiecesDetermine` these clauses fix the new
   * suffix exactly.
   */
  lemma NextNameEffect(p: string)
    requires HasMatch(p) && AllBelow(RunValues(Suffix(p)), MaxInt64)
    ensures var r := NextName(p);
      && HasMatch(r) && MatchStart(r) == MatchStart(p)
      && r[..MatchStart(p)] == p[..MatchStart(p)]
      && Collapse(Suffix(r)) == Collapse(Suffix(p))
      && RunValues(Suffix(r)) == Successors(RunValues(Suffix(p)))
      && RunTexts(Suffix(r)) == Printed(Successors(RunValues(Suffix(p))))
      && Ordinal(r) == Ordinal(p) + 1
      && r != p
  {
    var r := NextName(p);
    NextNameKeepsMatch(p);
    var s := Suffix(p);
    IncrementRunsCollapse(s);
    IncrementRunsValues(s);
    IncrementRunsTexts(s);
    assert Ordinal(r) == Ordinal(p) + 1;
    assert Suffix(r) != Suffix(p);
  }

  /** Text without digits passes through the rewrite unchanged. */
  lemma {:induction false} IncrementRunsNoDigits(s: string)
    requires forall i :: 0 <= i < |s| ==> !IsDigit(s[i])
    ensures IncrementRuns(s) == s
    decreases |s|
  {
    if s != [] {
      IncrementRunsNoDigits(s[1..]);
    }
  }

  /** A single digit below nine is bumped to the next digit. */
  lemma BumpDigit(d: string)
    requires |d| == 1 && IsDigit(d[0]) && d[0] != '9'
    ensures Bump(d) == [DigitChar(DigitValue(d[0]) + 1)]
  {
    assert d[..|d| - 1] == [];
    assert Value(d) == DigitValue(d[0]) < 9;
    assert Atoi(d) == DigitValue(d[0]);
  }

  /** In a dated name the match starts at the `_` before the ordinal, not inside the date. */
  lemma DatedNameMatch(p: string)
    requires p == "app-20240301_3.log"
    ensures HasMatch(p) && MatchStart(p) == 12
  {
    assert MatchesAt(p, 12);
    assert forall j: nat :: j < 12 ==> p[j] != '_';
    LeftmostMatch(p, 12);
  }

  /** The suffix of a dated name: only the ordinal is a run of digits. */
  lemma DatedSuffixRewrite(s: string)
    requires s == "_3.log"
    ensures IncrementRuns(s) == "_4.log"
  {
    var d, e := s[1..2], s[2..];
    assert d == "3" && e == ".log";
    IncrementRunsNoDigits(e);
    BumpDigit(d);
    assert s == [s[0]] + (d + e);
    IncrementRunsAfterOther(s[0], d + e);
    IncrementRunsAfterRun(d, e);
  }

  lemma ExtensionRewrite(t: string)
    requires t == ".mp4"
    ensures IncrementRuns(t) == ".mp5"
  {
    assert t == ['.'] + (['m'] + (['p'] + ("4" + [])));
    IncrementRunsAfterOther('.', ['m'] + (['p'] + ("4" + [])));
    IncrementRunsAfterOther('m', ['p'] + ("4" + []));
    IncrementRunsAfterOther('p', "4" + []);
    IncrementRunsAfterRun("4", []);
    BumpDigit("4");
  }

  /** Every run of digits in the suffix grows, the one in the extension too. */
  lemma SuffixRewriteBumpsExtension(s: string)
    requires s == "_3.mp4"
    ensures IncrementRuns(s) == "_4.mp5"
  {
    var d, e := s[1..2], s[2..];
    assert d == "3" && e == ".mp4";
    ExtensionRewrite(e);
    BumpDigit(d);
    assert s == [s[0]] + (d + e);
    IncrementRunsAfterOther(s[0], d + e);
    IncrementRunsAfterRun(d, e);
  }

  /** The successor is printed without the leading zeros the old number had. */
  lemma SuffixRewriteDropsZeros(s: string)
    requires s == "_03"
    ensures IncrementRuns(s) == "_4"
  {
    assert s == ['_'] + ("03" + []);
    IncrementRunsAfterOther('_', "03" + []);
    IncrementRunsAfterRun("03", []);
    assert Value("03") == 3;
    assert Bump("03") == "4";
  }

  /** The rotation the log writer performs on a dated name. */
  lemma RotateDatedName(p: string)
    requires p == "app-20240301_3.log"
    ensures NextName(p) == "app-20240301_4.log"
  {
    DatedNameMatch(p);
    assert FindMatch(p, 0) == Some(12);
    assert p[..12] == "app-20240301" && p[12..] == "_3.log";
    DatedSuffixRewrite(p[12..]);
  }
}
