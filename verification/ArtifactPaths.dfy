/** Which paths of a workspace are protected, and what their names tell about them
    (apatch/artifact_governance.py). Paths are relative and in normal form. */
module ArtifactPaths {
  import opened Common

  datatype Class =
    | State
    | Ledger
    | Registry
    | RunState
    | History
    | Ephemeral
    | Debug
    | Garbage
    | Unregistered
    | Unclassified

  predicate StartsWith(s: string, prefix: string) {
    |prefix| <= |s| && s[..|prefix|] == prefix
  }

  predicate EndsWith(s: string, suffix: string) {
    |suffix| <= |s| && s[|s| - |suffix|..] == suffix
  }

  // fnmatch, for patterns whose only special character is '*'.
  predicate Wild(s: string, pattern: string)
    decreases |pattern|, |s|
  {
    if pattern == "" then s == ""
    else if pattern[0] == '*' then Wild(s, pattern[1..]) || (s != "" && Wild(s[1..], pattern))
    else s != "" && s[0] == pattern[0] && Wild(s[1..], pattern[1..])
  }

  // A literal part of a pattern stands for itself, and a star for any text, slashes included.
  lemma {:induction false} WildLiteral(s: string, text: string, rest: string)
    requires '*' !in text
    ensures Wild(s, text + rest) <==> StartsWith(s, text) && Wild(s[|text|..], rest)
  {
    if text == "" {
      assert text + rest == rest && s[0..] == s;
    } else {
      assert (text + rest)[1..] == text[1..] + rest;
      if s != "" {
        WildLiteral(s[1..], text[1..], rest);
        if |text| <= |s| { assert s[1..][|text| - 1..] == s[|text|..] && s[..|text|] == [s[0]] + s[1..][..|text| - 1]; }
      }
    }
  }

  lemma {:induction false} WildStar(s: string, rest: string)
    ensures Wild(s, "*" + rest) <==> exists k :: 0 <= k <= |s| && Wild(s[k..], rest)
    decreases |s|
  {
    assert ("*" + rest)[1..] == rest && s[0..] == s;
    if s != "" {
      WildStar(s[1..], rest);
      if k :| 0 <= k <= |s| - 1 && Wild(s[1..][k..], rest) { assert s[1..][k..] == s[k + 1..]; }
      if k :| 0 < k <= |s| && Wild(s[k..], rest) { assert s[1..][k - 1..] == s[k..]; }
    }
  }

  // With a single star: the text before it, anything, the text behind it.
  lemma OneStarExactly(s: string, before: string, behind: string)
    requires '*' !in before && '*' !in behind
    ensures Wild(s, before + "*" + behind)
       <==> |before| + |behind| <= |s| && StartsWith(s, before) && EndsWith(s, behind)
  {
    assert before + "*" + behind == before + ("*" + behind);
    WildLiteral(s, before, "*" + behind);
    if StartsWith(s, before) {
      var rest := s[|before|..];
      WildStar(rest, behind);
      forall k | 0 <= k <= |rest| ensures Wild(rest[k..], behind) <==> rest[k..] == behind {
        assert behind + "" == behind;
        WildLiteral(rest[k..], behind, "");
      }
      if |behind| <= |rest| { assert rest[|rest| - |behind|..] == s[|s| - |behind|..]; }
    }
  }

  // The pattern dir + "/**": the directory and everything below it.
  predicate Under(path: string, dir: string) {
    path == dir || StartsWith(path, dir + "/")
  }

  predicate IsStatic(path: string) {
    || Under(path, ".trustchain") || Under(path, ".apatch/ledger") || Under(path, ".apatch/state")
    || path == ".apatch/events.jsonl" || path == ".apatch/session_state.json" || path == ".apatch/enforcement.json"
    || path == ".apatch/sandbox.json" || path == ".apatch/policy.lock.json" || path == ".apatch/inclusion.jsonl"
    || path == ".apatch/reality.jsonl"
  }

  predicate IsLock(path: string) {
    StartsWith(path, ".apatch/") && EndsWith(path, ".lock")
  }

  function Canonical(path: string): Option<Class> {
    if path == ".apatch/conformance.json" then Some(State)
    else if path == ".apatch/project_index.json" then Some(Registry)
    else if path == ".apatch/reality.jsonl" then Some(Ledger)
    else if path == ".apatch/remote.json" then Some(State)
    else if path == ".apatch/request_journal.json" then Some(RunState)
    else None
  }

  predicate IsDebugFile(path: string) {
    path == ".apatch/mcp_stderr.log" || path == ".apatch/sandbox_violations.jsonl" || path == ".apatch/report.html"
    || path == ".apatch/console.json"
  }

  // ---------- What a name tells ----------

  predicate IsPatchLogName(path: string) {
    Wild(path, "patches-*.jsonl") || path == "patches.jsonl"
  }

  predicate IsGarbageName(path: string) {
    Wild(path, ".apatch/_bench*.jsonl") || path == ".apatch/_big.jsonl" || path == ".apatch/_cold.jsonl"
    || path == ".apatch/_mcp_bench.jsonl"
  }

  predicate IsEarlyDebugName(path: string) {
    path == ".apatch/mcp_stderr.log" || path == ".apatch/sandbox_violations.jsonl"
  }

  predicate IsScratchDir(path: string) {
    Under(path, ".apatch/tmp") || Under(path, ".apatch/verify_jobs")
  }

  predicate IsRegistryName(path: string) {
    Under(path, ".apatch/registry") || Wild(path, ".apatch/specs/*.json")
  }

  predicate IsStateDir(path: string) {
    Under(path, ".apatch/hygiene") || Under(path, ".apatch/state")
  }

  predicate IsRunDir(path: string) {
    Under(path, ".apatch/lanes") || Under(path, ".apatch/diagnostics") || Under(path, ".apatch/staging")
  }

  predicate IsToolStateName(path: string) {
    path == ".apatch/mcp.json" || path == ".apatch/mcp_tool_fingerprint.json" || path == ".apatch/verify_baseline.json"
  }

  predicate IsRunReportName(path: string) {
    path == ".apatch/replay_log.json" || path == ".apatch/mcp_apply_report.json"
  }

  predicate IsControlStateName(path: string) {
    path == ".apatch/enforcement.json" || path == ".apatch/sandbox.json" || path == ".apatch/agent-identity.json"
    || path == ".apatch/lane_registry.json" || path == ".apatch/session_state.json"
    || path == ".apatch/policy.lock.json"
  }

  predicate IsLedgerName(path: string) {
    path == ".apatch/inclusion.jsonl" || path == ".apatch/events.jsonl"
  }

  predicate IsRunName(path: string) {
    Wild(path, ".apatch/apply_session*.json") || path == ".apatch/spec_run.json"
  }

  predicate IsLogName(path: string) {
    Wild(path, ".apatch/doc-*.jsonl") || Wild(path, ".apatch/*needles*.json") || Wild(path, ".apatch/*needles*.py")
    || Wild(path, ".apatch/spec*run*.json") || Wild(path, ".apatch/*manifest*.json") || Wild(path, ".apatch/*.jsonl")
  }

  // The inference rules, first match wins.
  function Infer(path: string): (c: Option<Class>)
    ensures c == Some(Debug) ==> IsDebugFile(path)
  {
    if Canonical(path).Some? then Canonical(path)
    else if IsPatchLogName(path) then Some(Ephemeral)
    else if IsGarbageName(path) then Some(Garbage)
    else if Under(path, ".apatch/backups") then Some(History)
    else if IsEarlyDebugName(path) then Some(Debug)
    else if IsScratchDir(path) then Some(Ephemeral)
    else if IsRegistryName(path) then Some(Registry)
    else if IsStateDir(path) then Some(State)
    else if Under(path, ".apatch/ledger") then Some(Ledger)
    else if IsRunDir(path) then Some(RunState)
    else InferNamed(path)
  }

  // The rules from ".apatch/mcp.json" on.
  function InferNamed(path: string): (c: Option<Class>)
    ensures c == Some(Debug) ==> IsDebugFile(path)
  {
    if IsToolStateName(path) then Some(State)
    else if path == ".apatch/notarized_index.json" then Some(Registry)
    else if IsRunReportName(path) then Some(RunState)
    else if path == ".apatch/report.html" then Some(Debug)
    else if IsControlStateName(path) then Some(State)
    else if IsLedgerName(path) then Some(Ledger)
    else if IsRunName(path) then Some(RunState)
    else if path == ".apatch/console.json" then Some(Debug)
    else if IsLogName(path) then Some(Ephemeral)
    else None
  }

  // The names the workspace scans look at: patch logs at the root and everything below .apatch.
  predicate IsScanned(path: string) {
    path == "patches.jsonl" || (StartsWith(path, "patches-") && EndsWith(path, ".jsonl") && '/' !in path)
    || StartsWith(path, ".apatch/")
  }

  function DefaultGcAllowed(c: Class): bool {
    c == History || c == Ephemeral || c == Debug || c == Garbage
  }

  function DefaultReplayCritical(c: Class): bool {
    c == State || c == Ledger || c == Registry || c == RunState
  }

  // ---------- No disposable name is protected ----------

  // The first characters after ".apatch/" tell the names apart.
  lemma StaticShape(path: string)
    requires IsStatic(path)
    ensures |path| >= 11
    ensures path[1] == 't' || path[8] in {'l', 'e', 'p', 'i'} || (path[8] == 's' && (path[9] != 'a' || |path| == 20))
            || (path[8] == 'r' && path[10] == 'a')
  {
  }

  lemma DebugShape(path: string)
    requires IsDebugFile(path)
    ensures |path| >= 11 && path[1] == 'a'
    ensures path[8] in {'m', 'c'} || (path[8] == 's' && path[9] == 'a' && |path| == 32)
            || (path[8] == 'r' && path[10] == 'p')
  {
  }

  // Neither a debug name nor a backup is protected.
  lemma DebugIsNotStatic(path: string)
    requires IsDebugFile(path)
    ensures !IsStatic(path)
  {
    DebugShape(path);
    if IsStatic(path) { StaticShape(path); }
  }

  lemma BackupIsNotStatic(path: string)
    requires StartsWith(path, ".apatch/backups/")
    ensures !IsStatic(path)
  {
    assert path[1] == 'a' && path[8] == 'b';
    if IsStatic(path) { StaticShape(path); }
  }

  // ---------- What a protected name is inferred to be ----------

  // A pattern is matched literally up to its first '*'.
  lemma {:induction false} WildPrefix(s: string, pattern: string, k: nat)
    requires Wild(s, pattern) && k <= |pattern| && '*' !in pattern[..k]
    ensures |s| >= k && s[..k] == pattern[..k]
    decreases k
  {
    if k > 0 {
      assert pattern[..k][0] == pattern[0];
      assert pattern[1..][..k - 1] == pattern[1..k] == pattern[..k][1..];
      WildPrefix(s[1..], pattern[1..], k - 1);
      assert s[..k] == [s[0]] + s[1..][..k - 1];
    }
  }

  // No pattern with such a beginning matches a path that differs in it.
  lemma WildDiffers(s: string, pattern: string, k: nat, i: nat)
    requires i < k <= |pattern| && i < |s| && s[i] != pattern[i] && '*' !in pattern[..k]
    ensures !Wild(s, pattern)
  {
    if Wild(s, pattern) { WildPrefix(s, pattern, k); }
  }

  predicate IsKept(c: Class) {
    DefaultReplayCritical(c) && !DefaultGcAllowed(c)
  }

  // A protected path is below .trustchain, or the rules name it as state or ledger.
  lemma StaticCases(path: string)
    requires IsStatic(path)
    ensures Under(path, ".trustchain") || IsStateDir(path) || Under(path, ".apatch/ledger")
         || IsControlStateName(path) || IsLedgerName(path) || Canonical(path).Some?
  {
  }

  lemma CanonicalIsKept(path: string)
    ensures Canonical(path).Some? ==> IsKept(Canonical(path).value)
  {
  }

  lemma PatchLogIsNotStatic(path: string)
    requires IsStatic(path)
    ensures !IsPatchLogName(path)
  {
    hide Wild;
    assert path[0] == '.';
    WildDiffers(path, "patches-*.jsonl", 1, 0);
  }

  lemma GarbageIsNotStatic(path: string)
    requires IsStatic(path)
    ensures !IsGarbageName(path)
  {
    hide Wild, IsStatic;
    StaticShape(path);
    if path[1] == 't' {
      WildDiffers(path, ".apatch/_bench*.jsonl", 2, 1);
    } else {
      WildDiffers(path, ".apatch/_bench*.jsonl", 9, 8);
    }
  }

  lemma ScratchIsNotStatic(path: string)
    requires IsStatic(path)
    ensures !IsScratchDir(path) && !Under(path, ".apatch/backups")
  {
    hide IsStatic;
    StaticShape(path);
  }

  lemma EarlyDebugIsNotStatic(path: string)
    requires IsStatic(path)
    ensures !IsEarlyDebugName(path) && path != ".apatch/report.html" && path != ".apatch/console.json"
  {
    hide IsStatic;
    if IsDebugFile(path) { DebugIsNotStatic(path); }
  }

  lemma TrustchainIsNoLog(path: string)
    requires Under(path, ".trustchain")
    ensures !IsLogName(path)
  {
    hide Wild;
    assert path[1] == 't';
    WildDiffers(path, ".apatch/doc-*.jsonl", 2, 1);
    WildDiffers(path, ".apatch/*needles*.json", 2, 1);
    WildDiffers(path, ".apatch/*needles*.py", 2, 1);
    WildDiffers(path, ".apatch/spec*run*.json", 2, 1);
    WildDiffers(path, ".apatch/*manifest*.json", 2, 1);
    WildDiffers(path, ".apatch/*.jsonl", 2, 1);
  }

  // Whatever the rules infer for a protected path is a class that is replay critical and not collected.
  lemma InferredStaticIsKept(path: string)
    requires IsStatic(path)
    ensures Infer(path).Some? ==> IsKept(Infer(path).value)
  {
    hide IsStatic, Under, Canonical, IsPatchLogName, IsGarbageName, IsEarlyDebugName, IsScratchDir;
    hide IsRegistryName, IsStateDir, IsRunDir, IsToolStateName, IsRunReportName, IsControlStateName;
    hide IsLedgerName, IsRunName, IsLogName, IsDebugFile;
    CanonicalIsKept(path);
    StaticCases(path);
    PatchLogIsNotStatic(path);
    GarbageIsNotStatic(path);
    ScratchIsNotStatic(path);
    EarlyDebugIsNotStatic(path);
    if Under(path, ".trustchain") { TrustchainIsNoLog(path); }
  }
}
