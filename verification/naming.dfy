/** The two "first free name" loops: the archive name picked in `close` and
    the output directory picked at start-up. */
module Naming {
  import opened Decimal

  /** `s.split("(")[0]`: everything before the first `(`. */
  function BeforeParen(s: string): (p: string)
    ensures p <= s
    ensures '(' !in p
    ensures '(' !in s ==> p == s
  {
    if s == [] then []
    else if s[0] == '(' then []
    else [s[0]] + BeforeParen(s[1..])
  }

  lemma {:induction false} BeforeParenAppend(p: string, rest: string)
    requires '(' !in p
    ensures BeforeParen(p + "(" + rest) == p
    decreases |p|
  {
    if p == [] {
      assert p + "(" + rest == "(" + rest;
    } else {
      assert (p + "(" + rest)[1..] == p[1..] + "(" + rest;
      BeforeParenAppend(p[1..], rest);
    }
  }

  // ---------------------------------------------------------------------------
  // Archive name

  /** Where the archive goes: `output_user_<id>` under `../../../` on macOS and `./` elsewhere. */
  function ArchiveBase(userId: string, darwin: bool): string {
    (if darwin then "../../../" else "./") + "output_user_" + userId
  }

  /** The name tried after `k` taken ones. */
  function ArchiveCandidate(base: string, k: nat): string {
    if k == 0 then base else BeforeParen(base) + "(" + Show(k) + ")"
  }

  /** The number between the parentheses of candidate `k` reads back as `k`. */
  lemma ArchiveCandidateNumber(base: string, k: nat)
    requires k > 0
    ensures var r := ArchiveCandidate(base, k);
      |r| >= |BeforeParen(base)| + 3 &&
      var n := r[|BeforeParen(base)| + 1..|r| - 1];
      Digits(n) && Value(n) == k
  {
    var p := BeforeParen(base);
    ValueShow(k);
    assert (p + "(" + Show(k) + ")")[|p| + 1..|p| + 1 + |Show(k)|] == Show(k);
  }

  predicate IsAlphaNumeric(c: char) {
    ('A' <= c <= 'Z') || ('a' <= c <= 'z') || ('0' <= c <= '9')
  }

  /** A user id accepted by the `[A-Za-z0-9]+` validator gives candidates
      `base`, `base(1)`, `base(2)`, …: the part before the first `(` is the base. */
  lemma ArchiveCandidates(userId: string, darwin: bool, k: nat)
    requires forall i :: 0 <= i < |userId| ==> IsAlphaNumeric(userId[i])
    ensures var base := ArchiveBase(userId, darwin);
      && '(' !in base
      && (k > 0 ==> ArchiveCandidate(base, k) == base + "(" + Show(k) + ")")
      && BeforeParen(ArchiveCandidate(base, k)) == base
  {
    var base := ArchiveBase(userId, darwin);
    assert forall i :: 0 <= i < |base| ==> base[i] != '(';
    if k > 0 {
      BeforeParenAppend(base, Show(k) + ")");
      assert base + "(" + Show(k) + ")" == base + "(" + (Show(k) + ")");
    }
  }

  lemma ArchiveCandidateInjective(base: string, i: nat, j: nat)
    requires 0 < i && 0 < j
    requires ArchiveCandidate(base, i) + ".zip" == ArchiveCandidate(base, j) + ".zip"
    ensures i == j
  {
    var p := BeforeParen(base);
    var a := ArchiveCandidate(base, i);
    var b := ArchiveCandidate(base, j);
    assert |a| == |b|;
    assert a == (a + ".zip")[..|a|] == (b + ".zip")[..|b|] == b;
    ArchiveCandidateNumber(base, i);
    ArchiveCandidateNumber(base, j);
  }

  /** The loop body's update produces the next candidate. */
  lemma NextArchiveCandidate(base: string, idx: nat)
    ensures BeforeParen(ArchiveCandidate(base, idx)) + "(" + Show(idx + 1) + ")" == ArchiveCandidate(base, idx + 1)
  {
    if idx > 0 {
      var p := BeforeParen(base);
      BeforeParenAppend(p, Show(idx) + ")");
      assert p + "(" + Show(idx) + ")" == p + "(" + (Show(idx) + ")");
    }
  }

  /** The `.zip` names of candidates `1 .. idx-1`. */
  ghost predicate TriedBefore(base: string, tried: set<string>, idx: nat) {
    && (forall x :: x in tried ==> exists j :: 0 < j < idx && x == ArchiveCandidate(base, j) + ".zip")
  }

  ghost function ExtendTried(base: string, tried: set<string>, idx: nat): (t: set<string>)
    requires 0 < idx
    requires TriedBefore(base, tried, idx)
    ensures t == tried + {ArchiveCandidate(base, idx) + ".zip"}
    ensures TriedBefore(base, t, idx + 1)
  {
    var t := tried + {ArchiveCandidate(base, idx) + ".zip"};
    assert forall x :: x in t ==> exists j :: 0 < j < idx + 1 && x == ArchiveCandidate(base, j) + ".zip" by {
      forall x | x in t
        ensures exists j :: 0 < j < idx + 1 && x == ArchiveCandidate(base, j) + ".zip"
      {
        if x !in tried {
          assert x == ArchiveCandidate(base, idx) + ".zip";
        }
      }
    }
    t
  }

  lemma FreshCandidate(base: string, tried: set<string>, idx: nat)
    requires 0 < idx
    requires TriedBefore(base, tried, idx)
    ensures ArchiveCandidate(base, idx) + ".zip" !in tried
  {
    var x := ArchiveCandidate(base, idx) + ".zip";
    if x in tried {
      var j :| 0 < j < idx && x == ArchiveCandidate(base, j) + ".zip";
      ArchiveCandidateInjective(base, j, idx);
    }
  }

  /** `name.split("(")[0] + "(%d)" % idx` */
  function Renamed(name: string, idx: nat): string {
    BeforeParen(name) + "(" + Show(idx) + ")"
  }

  /** The archive `<candidate k>.zip` already exists. */
  predicate Taken(base: string, files: set<string>, k: nat) {
    ArchiveCandidate(base, k) + ".zip" in files
  }

  /** What the loop of `close` knows before trying candidate `idx`: every
      earlier candidate is taken, and `tried` holds the `.zip` names of the
      `idx - 1` distinct candidates `1 .. idx-1`, all existing. */
  ghost predicate ArchiveInvariant(base: string, files: set<string>, tried: set<string>, idx: nat) {
    && (forall j :: 0 <= j < idx ==> Taken(base, files, j))
    && tried <= files
    && |tried| == (if idx == 0 then 0 else idx - 1)
    && TriedBefore(base, tried, idx)
  }

  /** The `.zip` names tried once candidate `idx` is found taken. */
  function NextTried(base: string, tried: set<string>, idx: nat): set<string> {
    if idx == 0 then tried else tried + {ArchiveCandidate(base, idx) + ".zip"}
  }

  /** One turn of the loop of `close` keeps its invariant; since `tried`
      grows inside `files`, there can be at most `|files| + 1` turns. */
  lemma ArchiveStepKeeps(base: string, files: set<string>, tried: set<string>, idx: nat)
    requires ArchiveInvariant(base, files, tried, idx)
    requires Taken(base, files, idx)
    ensures ArchiveInvariant(base, files, NextTried(base, tried, idx), idx + 1)
    ensures idx + 1 <= |files| + 1
  {
    var t := NextTried(base, tried, idx);
    assert forall j :: 0 <= j < idx + 1 ==> Taken(base, files, j);
    if idx > 0 {
      FreshCandidate(base, tried, idx);
      assert t == ExtendTried(base, tried, idx);
      assert |t| == idx;
      SubsetSize(t, files);
    }
  }

  /** The ghost state of one loop turn, with the facts the loop needs. */
  ghost function ArchiveStep(base: string, files: set<string>, tried: set<string>, idx: nat): (t: set<string>)
    requires ArchiveInvariant(base, files, tried, idx)
    requires Taken(base, files, idx)
    ensures ArchiveInvariant(base, files, t, idx + 1)
    ensures Renamed(ArchiveCandidate(base, idx), idx + 1) == ArchiveCandidate(base, idx + 1)
    ensures idx + 1 <= |files| + 1
  {
    NextArchiveCandidate(base, idx);
    ArchiveStepKeeps(base, files, tried, idx);
    NextTried(base, tried, idx)
  }

  lemma SubsetSize(a: set<string>, b: set<string>)
    requires a <= b
    ensures |a| <= |b|
  {
    assert b == a + (b - a);
  }

  /** The loop of `close`: the first candidate whose `.zip` file does not
      exist among `files`. */
  method ArchiveName(base: string, files: set<string>) returns (name: string, idx: nat)
    ensures name == ArchiveCandidate(base, idx)
    ensures name + ".zip" !in files
    ensures forall j :: 0 <= j < idx ==> Taken(base, files, j)
  {
    name := base;
    idx := 0;
    ghost var tried: set<string> := {};
    while name + ".zip" in files
      invariant name == ArchiveCandidate(base, idx)
      invariant ArchiveInvariant(base, files, tried, idx)
      invariant idx <= |files| + 1
      decreases |files| + 1 - idx
    {
      tried := ArchiveStep(base, files, tried, idx);
      idx := idx + 1;
      name := Renamed(name, idx);
    }
  }

  // ---------------------------------------------------------------------------
  // Output directory

  /** `output`, then `output0`, `output1`, … */
  function OutputCandidate(k: nat): (r: string)
    ensures "output" <= r
    ensures k == 0 <==> r == "output"
    ensures k > 0 ==> |r| > 6 && Digits(r[6..]) && Value(r[6..]) == k - 1
  {
    if k == 0 then "output"
    else
      ValueShow(k - 1);
      assert ("output" + Show(k - 1))[6..] == Show(k - 1);
      "output" + Show(k - 1)
  }

  lemma OutputCandidateInjective(i: nat, j: nat)
    requires OutputCandidate(i) == OutputCandidate(j)
    ensures i == j
  {
  }

  /** What the start-up loop knows before trying candidate `k`: every
      earlier candidate exists, and `tried` holds exactly those. */
  ghost predicate OutputInvariant(existing: set<string>, tried: set<string>, k: nat) {
    && (forall j :: 0 <= j < k ==> OutputCandidate(j) in existing)
    && tried <= existing
    && (forall x :: x in tried ==> exists j :: 0 <= j < k && x == OutputCandidate(j))
  }

  /** One turn of the start-up loop keeps its invariant and shrinks the
      untried part of `existing`. */
  ghost function OutputStep(existing: set<string>, tried: set<string>, k: nat): (t: set<string>)
    requires OutputInvariant(existing, tried, k)
    requires OutputCandidate(k) in existing
    ensures OutputInvariant(existing, t, k + 1)
    ensures |existing - t| < |existing - tried|
  {
    var path := OutputCandidate(k);
    assert path !in tried;
    var t := tried + {path};
    assert existing - t < existing - tried by {
      assert path in existing - tried;
    }
    assert forall x :: x in t ==> exists j :: 0 <= j < k + 1 && x == OutputCandidate(j) by {
      forall x | x in t
        ensures exists j :: 0 <= j < k + 1 && x == OutputCandidate(j)
      {
        if x !in tried {
          assert x == OutputCandidate(k);
        }
      }
    }
    t
  }

  /** The start-up loop: creates and returns the first candidate directory
      not among `existing`, and how many existing candidates it passed over. */
  method OutputDirectory(existing: set<string>) returns (path: string, created: set<string>, skipped: nat)
    ensures path == OutputCandidate(skipped)
    ensures path !in existing
    ensures created == existing + {path}
    ensures forall j :: 0 <= j < skipped ==> OutputCandidate(j) in existing
  {
    path := "output";
    var idx: nat := 0;
    skipped := 0;
    ghost var tried: set<string> := {};
    while path in existing
      invariant path == OutputCandidate(skipped) && skipped == idx
      invariant OutputInvariant(existing, tried, skipped)
      decreases |existing - tried|
    {
      tried := OutputStep(existing, tried, skipped);
      path := "output" + Show(idx);
      idx := idx + 1;
      skipped := skipped + 1;
    }
    created := existing + {path};
  }
}
