/**
 * The initial file name a new `Log` derives from its template path:
 * `path.Ext`, `strings.Replace(..., 1)` and the dated `_0` ordinal.
 */
module NewPath {
  import opened Wrappers
  import opened Decimal
  import opened FileName

  /** A date as `time.Format` prints the layout `20060102`: eight digits. */
  predicate IsDate(date: string) {
    |date| == 8 && AllDigits(date)
  }

  /** The shape of a non-empty extension: a dot, then neither dots nor slashes. */
  predicate DotLed(e: string) {
    |e| >= 1 && e[0] == '.' && forall i :: 0 < i < |e| ==> e[i] != '.' && e[i] != '/'
  }

  /**
   * `path.Ext` scanning the positions below `n` from right to left; the
   * positions from `n` on hold neither `/` nor `.`.
   */
  function ExtBelow(p: string, n: nat): (e: string)
    requires n <= |p| && forall i :: n <= i < |p| ==> p[i] != '.' && p[i] != '/'
    ensures e != [] ==> |e| <= |p| && e == p[|p| - |e|..] && DotLed(e)
    ensures e == [] ==> forall j :: 0 <= j < n && p[j] == '.' ==> '/' in p[j..]
    decreases n
  {
    if n == 0 then []
    else if p[n - 1] == '/' then
      assert forall j :: 0 <= j < n - 1 ==> p[j..][n - 1 - j] == '/';
      []
    else if p[n - 1] == '.' then p[n - 1..]
    else ExtBelow(p, n - 1)
  }

  /**
   * `path.Ext`: the suffix of `p` from the last `.` of its last
   * `/`-separated element, or empty when that element has no dot.
   */
  function Ext(p: string): (e: string)
    ensures e != [] ==> |e| <= |p| && e == p[|p| - |e|..] && DotLed(e)
    ensures e == [] ==> forall j :: 0 <= j < |p| && p[j] == '.' ==> '/' in p[j..]
  {
    ExtBelow(p, |p|)
  }

  /** A dot followed by neither dots nor slashes up to the end starts the extension. */
  lemma ExtAt(p: string, m: nat)
    requires m < |p| && p[m] == '.'
    requires forall i :: m < i < |p| ==> p[i] != '.' && p[i] != '/'
    ensures Ext(p) == p[m..]
  {
    var x := Ext(p);
    assert forall i :: 0 <= i < |p[m..]| ==> p[m..][i] != '/';
    assert '/' !in p[m..];
    assert x != [];
    var k := |p| - |x|;
    assert forall i :: k < i < |p| ==> p[i] == x[i - k];
    assert k == m;
  }

  /** A dot-led tail without separators or further dots is the extension. */
  lemma ExtOfTail(a: string, e: string)
    requires DotLed(e)
    ensures Ext(a + e) == e
  {
    var p := a + e;
    assert forall i :: |a| <= i < |p| ==> p[i] == e[i - |a|];
    ExtAt(p, |a|);
    assert p[|a|..] == e;
  }

  predicate OccursAt(s: string, sub: string, j: nat) {
    j + |sub| <= |s| && s[j..j + |sub|] == sub
  }

  /** `strings.Index` from position `from` on: the first occurrence of `sub`. */
  function IndexFrom(s: string, sub: string, from: nat): (r: Option<nat>)
    requires from <= |s|
    ensures r.Some? ==> from <= r.value && OccursAt(s, sub, r.value)
    ensures r.Some? ==> forall j: nat :: from <= j < r.value ==> !OccursAt(s, sub, j)
    ensures r.None? ==> forall j: nat :: from <= j ==> !OccursAt(s, sub, j)
    decreases |s| - from
  {
    if from + |sub| > |s| then None
    else if s[from..from + |sub|] == sub then Some(from)
    else if from == |s| then None
    else IndexFrom(s, sub, from + 1)
  }

  /** `strings.Replace(s, pattern, by, 1)`: the first occurrence of `pattern` becomes `replacement`. */
  function ReplaceFirst(s: string, pattern: string, replacement: string): (r: string)
    ensures (forall j: nat :: !OccursAt(s, pattern, j)) ==> r == s
    ensures forall i: nat :: OccursAt(s, pattern, i) && (forall j: nat :: j < i ==> !OccursAt(s, pattern, j)) ==>
      r == s[..i] + replacement + s[i + |pattern|..]
    ensures (exists j: nat :: OccursAt(s, pattern, j)) ==> |r| == |s| - |pattern| + |replacement|
  {
    match IndexFrom(s, pattern, 0)
    case None => s
    case Some(i) => s[..i] + replacement + s[i + |pattern|..]
  }

  /**
   * The initial path as `New` computes it: without an extension the dated
   * name gets `.log`; with one, the FIRST occurrence of the extension text
   * anywhere in the template is replaced.
   */
  function InitialPath(template: string, date: string): (r: string)
    requires IsDate(date)
    ensures Ext(template) == [] ==> |r| == |template| + 15 && r[..|template|] == template && HasMatch(r) && Ext(r) == ".log"
    ensures Ext(template) != [] ==> |r| == |template| + 11
  {
    var ext := Ext(template);
    if ext == [] then
      var r := template + "-" + date + "_0.log";
      assert r == InitialPathFixed(template, date);
      r
    else
      assert OccursAt(template, ext, |template| - |ext|);
      ReplaceFirst(template, ext, "-" + date + "_0" + ext)
  }

  /**
   * The initial path as intended: the dated `_0` ordinal goes right before
   * the extension that ends the template. The result always has a
   * rotatable suffix (unless the extension holds a `\\`, which `path.Ext`
   * does not treat as a separator) and keeps the template's extension
   * (`.log` when it had none).
   */
  function InitialPathFixed(template: string, date: string): (r: string)
    requires IsDate(date)
    ensures '\\' !in Ext(template) ==> HasMatch(r)
    ensures Ext(r) == if Ext(template) == [] then ".log" else Ext(template)
  {
    var ext := Ext(template);
    var tail := if ext == [] then ".log" else ext;
    var base := if ext == [] then template else template[..|template| - |ext|];
    var r := base + "-" + date + "_0" + tail;
    var k := |base| + 9;
    assert DotLed(tail);
    assert forall i :: 0 <= i < |tail| ==> tail[i] != '/';
    assert r[k..] == "_0" + tail;
    assert '\\' !in ext ==> MatchesAt(r, k);
    assert r == (base + "-" + date + "_0") + tail;
    ExtOfTail(base + "-" + date + "_0", tail);
    r
  }

  /**
   * Where the template has no extension, or its extension occurs only at
   * its end, the source and the intended derivation agree.
   */
  lemma InitialPathAgrees(template: string, date: string)
    requires IsDate(date)
    requires Ext(template) == [] || forall j: nat :: OccursAt(template, Ext(template), j) ==> j + |Ext(template)| == |template|
    ensures InitialPath(template, date) == InitialPathFixed(template, date)
  {
    var ext := Ext(template);
    if ext == [] {
      assert template + "-" + date + "_0.log" == template + "-" + date + "_0" + ".log";
    } else {
      var i := |template| - |ext|;
      assert OccursAt(template, ext, i);
      var r := IndexFrom(template, ext, 0);
      assert r.Some? && r.value == i;
      var dated := "-" + date + "_0" + ext;
      assert template[i + |ext|..] == [];
      calc {
        InitialPath(template, date);
        ReplaceFirst(template, ext, dated);
        template[..i] + dated + template[i + |ext|..];
        template[..i] + dated;
        template[..i] + "-" + date + "_0" + ext;
      }
    }
  }

  /** The template `app.log`: its extension occurs only at its end. */
  lemma AppTemplate(template: string)
    requires template == "app.log"
    ensures Ext(template) == ".log"
    ensures forall j: nat :: OccursAt(template, ".log", j) ==> j + 4 == |template|
  {
    assert template == "app" + ".log";
    ExtOfTail("app", ".log");
    forall j: nat | OccursAt(template, ".log", j)
      ensures j + 4 == |template|
    {
      assert template[j] == template[j..j + 4][0] == '.';
    }
  }

  lemma AppFixedPath(template: string, date: string)
    requires template == "app.log" && date == "20240301"
    ensures InitialPathFixed(template, date) == "app-20240301_0.log"
  {
    AppTemplate(template);
  }

  /** `New("app.log")` on 1 March 2024 writes to `app-20240301_0.log`. */
  lemma InitialPathExample(template: string, date: string)
    requires template == "app.log" && date == "20240301"
    ensures InitialPath(template, date) == "app-20240301_0.log"
  {
    AppTemplate(template);
    AppFixedPath(template, date);
    InitialPathAgrees(template, date);
  }

  /** In `my.logger/app.log` the extension text first occurs inside the directory name. */
  lemma LoggerTemplate(template: string)
    requires template == "my.logger/app.log"
    ensures Ext(template) == ".log"
    ensures IndexFrom(template, ".log", 0) == Some(2)
  {
    assert template == "my.logger/app" + ".log";
    ExtOfTail("my.logger/app", ".log");
    assert OccursAt(template, ".log", 2);
    assert !OccursAt(template, ".log", 0) && !OccursAt(template, ".log", 1);
  }

  lemma LoggerReplacement(template: string, date: string)
    requires template == "my.logger/app.log" && date == "20240301"
    ensures InitialPath(template, date) == template[..2] + ("-" + date + "_0" + ".log") + template[6..]
  {
    LoggerTemplate(template);
  }

  lemma LoggerSplice(template: string, date: string)
    requires template == "my.logger/app.log" && date == "20240301"
    ensures template[..2] + ("-" + date + "_0" + ".log") + template[6..] == "my-20240301_0.logger/app.log"
  {
    assert template[..2] == "my" && template[6..] == "ger/app.log";
  }

  lemma LoggerPath(template: string, date: string)
    requires template == "my.logger/app.log" && date == "20240301"
    ensures InitialPath(template, date) == "my-20240301_0.logger/app.log"
  {
    LoggerReplacement(template, date);
    LoggerSplice(template, date);
  }

  /** The only `_` of this name is followed by a separator further on. */
  lemma LoggerPathUnrotatable(r: string)
    requires r == "my-20240301_0.logger/app.log"
    ensures !HasMatch(r)
  {
    forall j: nat
      ensures !MatchesAt(r, j)
    {
      if j < |r| && r[j] == '_' {
        assert j == 11;
        assert r[j..][9] == '/';
      }
    }
  }

  /**
   * The extension text also occurs inside a directory name, and the dated
   * ordinal lands there: the file name keeps no `_<digits>` suffix free of
   * separators, so rotation cannot move past it.
   */
  lemma InitialPathMisplacesOrdinal(template: string, date: string)
    requires template == "my.logger/app.log" && date == "20240301"
    ensures InitialPath(template, date) == "my-20240301_0.logger/app.log"
    ensures !HasMatch(InitialPath(template, date))
    ensures NextName(InitialPath(template, date)) == InitialPath(template, date)
  {
    var r := "my-20240301_0.logger/app.log";
    LoggerPath(template, date);
    LoggerPathUnrotatable(r);
  }
}
