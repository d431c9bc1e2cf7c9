/** Policy refs and semantic versions as text. */
module PolicyVersions {
  import opened Text
  import opened Logs

  predicate Alphanumeric(c: char) { 'a' <= c <= 'z' || 'A' <= c <= 'Z' || '0' <= c <= '9' }

  predicate SafeIdChar(c: char) { Alphanumeric(c) || c == '_' || c == '.' || c == ':' || c == '-' }

  const MAX_SAFE_ID: nat := 128

  predicate SafeId(s: string) {
    1 <= |s| <= MAX_SAFE_ID && Alphanumeric(s[0]) && forall c :: c in s ==> SafeIdChar(c)
  }

  function Ref(id: string, version: string): string { id + "@" + version }

  /** Where the last separator stands; the length when there is none. */
  function LastIndexOf(s: string, mark: char): (i: nat)
    ensures i <= |s|
    ensures i < |s| ==> s[i] == mark && mark !in s[i + 1..]
    ensures i == |s| <==> mark !in s
  {
    if s == "" then 0
    else if s[|s| - 1] == mark then |s| - 1
    else
      var before := LastIndexOf(s[..|s| - 1], mark);
      if before == |s| - 1 then |s| else before
  }

  /** Python's `rsplit("@", 1)`, refused when either side is empty. */
  function SplitRef(ref: string): Option<(string, string)> {
    var at := LastIndexOf(ref, '@');
    if at == |ref| || at == 0 || at == |ref| - 1 then None else Some((ref[..at], ref[at + 1..]))
  }

  lemma RefRoundTrip(id: string, version: string)
    requires SafeId(id) && SafeId(version)
    ensures SplitRef(Ref(id, version)) == Some((id, version))
  {
    var ref := Ref(id, version);
    var at := LastIndexOf(ref, '@');
    assert ref == id + ['@'] + version;
    assert ref[|id|] == '@';
    assert '@' in ref;
    assert ref == ref[..at] + ['@'] + ref[at + 1..];
    SplitAtLast(id, version, ref[..at], ref[at + 1..], '@');
  }

  /** A ref names one id and one version. */
  lemma RefInjective(id: string, version: string, id2: string, version2: string)
    requires SafeId(id) && SafeId(version) && SafeId(id2) && SafeId(version2)
    requires Ref(id, version) == Ref(id2, version2)
    ensures id == id2 && version == version2
  {
    RefRoundTrip(id, version);
    RefRoundTrip(id2, version2);
  }

  // ---- versions -------------------------------------------------------------------------

  datatype Semver = Semver(major: nat, minor: nat, patch: nat)

  function FormatVersion(v: Semver): string {
    Digits(v.major) + "." + Digits(v.minor) + "." + Digits(v.patch)
  }

  /** Python's `split(mark)`. */
  function Split(s: string, mark: char): (parts: seq<string>)
    ensures |parts| >= 1
    decreases |s|
  {
    var at := LastIndexOf(s, mark);
    if at == |s| then [s] else Split(s[..at], mark) + [s[at + 1..]]
  }

  predicate IsNumber(s: string) { s != "" && AllDigits(s) }

  /** Three dot-separated numbers, or nothing. */
  function ParseVersion(s: string): Option<Semver> {
    var parts := Split(s, '.');
    if |parts| == 3 && IsNumber(parts[0]) && IsNumber(parts[1]) && IsNumber(parts[2])
    then Some(Semver(Value(parts[0]), Value(parts[1]), Value(parts[2])))
    else None
  }

  function NextPatch(v: Semver): Semver { v.(patch := v.patch + 1) }

  lemma LastIndexAt(a: string, b: string, mark: char)
    requires mark !in b
    ensures LastIndexOf(a + [mark] + b, mark) == |a|
  {
    var s := a + [mark] + b;
    assert s[|a|] == mark && s[|a| + 1..] == b;
    MarkStandsLast(s, |a|, mark);
  }

  lemma MarkStandsLast(s: string, i: nat, mark: char)
    requires i < |s| && s[i] == mark && mark !in s[i + 1..]
    ensures LastIndexOf(s, mark) == i
  {
    hide LastIndexOf;
    var at := LastIndexOf(s, mark);
    NoMarkAfter(s, at, i, mark);
    LaterInTail(s, i, at);
  }

  lemma LaterInTail(s: string, at: nat, i: nat)
    requires i < |s|
    ensures at < i ==> s[i] in s[at + 1..]
  {
    if at < i {
      assert s[at + 1..][i - at - 1] == s[i];
    }
  }

  lemma NoMarkAfter(s: string, at: nat, i: nat, mark: char)
    requires i < |s| && s[i] == mark && at <= |s| && (at < |s| ==> mark !in s[at + 1..]) && (at == |s| <==> mark !in s)
    ensures i <= at < |s|
  {
    assert mark in s;
    LaterInTail(s, at, i);
  }

  lemma SplitSnoc(a: string, b: string, mark: char)
    requires mark !in b
    ensures Split(a + [mark] + b, mark) == Split(a, mark) + [b]
  {
    LastIndexAt(a, b, mark);
    var s := a + [mark] + b;
    assert s[..|a|] == a && s[|a| + 1..] == b;
  }

  /** A formatted version reads back as itself; reading then formatting drops leading zeros only. */
  lemma VersionRoundTrip(v: Semver)
    ensures ParseVersion(FormatVersion(v)) == Some(v)
  {
    var a, b, c := Digits(v.major), Digits(v.minor), Digits(v.patch);
    assert FormatVersion(v) == (a + ['.'] + b) + ['.'] + c;
    SplitSnoc(a + ['.'] + b, c, '.');
    SplitSnoc(a, b, '.');
    assert Split(a, '.') == [a] by { assert '.' !in a; }
    assert Split(FormatVersion(v), '.') == [a, b, c];
    DigitsValue(v.major);
    DigitsValue(v.minor);
    DigitsValue(v.patch);
  }

  /** The `increment` helper: the text of the next patch version, or a refusal of anything but three numbers. */
  function IncrementPatch(version: string): Option<string> {
    match ParseVersion(version)
    case Some(v) => Some(FormatVersion(NextPatch(v)))
    case None => None
  }

  function Bump(v: Semver, k: nat): Semver { v.(patch := v.patch + k) }

  /** The refs tried by the search: the k-th patch after the base. */
  function Candidate(id: string, v: Semver, k: nat): string { Ref(id, FormatVersion(Bump(v, k))) }

  lemma CandidatesDiffer(id: string, v: Semver, j: nat, k: nat)
    requires Candidate(id, v, j) == Candidate(id, v, k)
    ensures j == k
  {
    var x, y := FormatVersion(v.(patch := v.patch + j)), FormatVersion(v.(patch := v.patch + k));
    assert Candidate(id, v, j) == (id + "@") + x && Candidate(id, v, k) == (id + "@") + y;
    SamePrefix(id + "@", x, y);
    VersionRoundTrip(v.(patch := v.patch + j));
    VersionRoundTrip(v.(patch := v.patch + k));
  }

  /** Distinct elements of a set are no more than the set. */
  lemma {:induction false} DistinctFit(tried: seq<string>, taken: set<string>)
    requires Distinct(tried) && forall x :: x in tried ==> x in taken
    ensures |tried| <= |taken|
  {
    if tried != [] {
      var init, last := tried[..|tried| - 1], tried[|tried| - 1];
      assert tried == init + [last];
      forall i | 0 <= i < |init| ensures init[i] != last {
        assert tried[i] != tried[|tried| - 1];
      }
      assert forall i, j :: 0 <= i < j < |init| ==> tried[i] != tried[j];
      DistinctFit(init, taken - {last});
    }
  }

  /** The first patch version after the base whose ref is free. */
  ghost predicate FirstFree(id: string, v: Semver, taken: set<string>, k: nat) {
    k >= 1 && Candidate(id, v, k) !in taken && forall j :: 1 <= j < k ==> Candidate(id, v, j) in taken
  }

  /**
    The next patch version nobody uses: the search ends because every version it rejects is a different taken ref, and
    it skips no free one.
  */
  method NextUnusedPatchVersion(id: string, base: string, taken: set<string>) returns (version: Option<string>, ghost k: nat)
    ensures version.Some? <==> ParseVersion(base).Some?
    ensures version.Some? ==>
              version.value == FormatVersion(Bump(ParseVersion(base).value, k)) && FirstFree(id, ParseVersion(base).value, taken, k)
  {
    hide FormatVersion, ParseVersion, Ref;
    version, k := IncrementPatch(base), 1;
    if version.None? {
      return;
    }
    ghost var v := ParseVersion(base).value;
    ghost var tried: seq<string> := [];
    while Ref(id, version.value) in taken
      invariant k >= 1 && version == Some(FormatVersion(Bump(v, k)))
      invariant |tried| == k - 1 && forall j :: 1 <= j < k ==> tried[j - 1] == Candidate(id, v, j)
      invariant Distinct(tried) && forall x :: x in tried ==> x in taken
      decreases |taken| - k
    {
      var now := Ref(id, version.value);
      forall j | 0 <= j < |tried| ensures tried[j] != now {
        assert tried[j + 1 - 1] == Candidate(id, v, j + 1);
        if tried[j] == now { CandidatesDiffer(id, v, j + 1, k); }
      }
      tried := tried + [now];
      DistinctFit(tried, taken);
      VersionRoundTrip(Bump(v, k));
      version := IncrementPatch(version.value);
      k := k + 1;
    }
    forall j | 1 <= j < k ensures Candidate(id, v, j) in taken {
      assert tried[j - 1] in tried;
    }
  }

  // ---- draft ids ------------------------------------------------------------------------------

  function DraftPrefix(pack: string, role: string): string { pack + "_" + role + "_draft_" }

  /** The number after the prefix, if the id has that form. */
  function DraftNumber(prefix: string, id: string): Option<nat> {
    if prefix <= id && IsNumber(id[|prefix|..]) then Some(Value(id[|prefix|..])) else None
  }

  lemma DraftNumberOf(prefix: string, n: nat)
    ensures DraftNumber(prefix, prefix + Digits(n)) == Some(n)
  {
    DigitsValue(n);
    assert (prefix + Digits(n))[|prefix|..] == Digits(n);
  }

  /** One more than the largest number in use under this prefix: an id no draft has. */
  method NextDraftId(ids: set<string>, pack: string, role: string) returns (id: string)
    ensures id !in ids
    ensures exists n: nat :: n >= 1 && id == DraftPrefix(pack, role) + Digits(n)
                             && forall x :: x in ids && DraftNumber(DraftPrefix(pack, role), x).Some? ==>
                                  DraftNumber(DraftPrefix(pack, role), x).value < n
  {
    var prefix := DraftPrefix(pack, role);
    var next := 1;
    var rest := ids;
    while rest != {}
      invariant rest <= ids && next >= 1
      invariant forall x :: x in ids && x !in rest && DraftNumber(prefix, x).Some? ==> DraftNumber(prefix, x).value < next
      decreases |rest|
    {
      var x :| x in rest;
      rest := rest - {x};
      var number := DraftNumber(prefix, x);
      if number.Some? && number.value + 1 > next {
        next := number.value + 1;
      }
    }
    id := prefix + Digits(next);
    DraftNumberOf(prefix, next);
  }
}
