/** The final-stage test harness: it builds the analyser, lists the test
    folders, and for each folder loads the generated FRISC program into the
    simulator, polls until the run finishes or stalls, decodes register R6
    as a two's-complement number and compares it with the expected value.
    Browser driving, sleeping, subprocesses and file access are replaced by
    the observations they produce (see `CaseEnv`). */
module Harness {
  import opened Wrappers
  import opened Text

  /** Seconds after which a simulator run is treated as stuck. */
  const MAX_RUN_TIME_SEC: nat := 10
  /** Index of the first test folder that is run. */
  const FIRST_FOLDER_OFFSET: nat := 0
  /** Fixed simulator parameters sent with every program. */
  const CPU_FREQ: string := "1000"
  const MEM_SIZE: string := "256"
  /** Folder-name that the listing always skips. */
  const DS_STORE: string := ".DS_Store"

  // ---------------------------------------------------------------------
  // Register decoding

  predicate IsHexDigit(c: char) {
    ('0' <= c <= '9') || ('a' <= c <= 'f') || ('A' <= c <= 'F')
  }

  predicate AllHex(s: string) { forall i :: 0 <= i < |s| ==> IsHexDigit(s[i]) }

  function HexDigitValue(c: char): (d: nat)
    requires IsHexDigit(c)
    ensures d < 16
  {
    if '0' <= c <= '9' then (c as int) - ('0' as int)
    else if 'a' <= c <= 'f' then (c as int) - ('a' as int) + 10
    else (c as int) - ('A' as int) + 10
  }

  function HexChar(d: nat): (c: char)
    requires d < 16
    ensures IsHexDigit(c) && HexDigitValue(c) == d
  {
    if d < 10 then (('0' as int) + d) as char else (('A' as int) + d - 10) as char
  }

  function Pow2(k: nat): (r: nat)
    ensures r >= 1
  {
    if k == 0 then 1 else 2 * Pow2(k - 1)
  }

  lemma Pow2Add(a: nat, b: nat)
    ensures Pow2(a + b) == Pow2(a) * Pow2(b)
  {
    if a > 0 {
      Pow2Add(a - 1, b);
    }
  }

  /** The unsigned value of a hexadecimal string, most significant digit first
      (Python's int(text, 16) on a string of hex digits). */
  function HexValue(s: string): (v: nat)
    requires AllHex(s)
    ensures v < Pow2(4 * |s|)
  {
    if |s| == 0 then 0
    else
      var v := HexValue(s[..|s| - 1]) * 16 + HexDigitValue(s[|s| - 1]);
      Pow2Add(4 * (|s| - 1), 4);
      v
  }

  /** Bit k of a natural number. */
  function Bit(n: nat, k: nat): bool {
    (n / Pow2(k)) % 2 == 1
  }

  /** Euclidean division is determined by any quotient/remainder pair. */
  lemma DivModUnique(v: int, d: int, q: int, r: int)
    requires d > 0 && 0 <= r < d && v == d * q + r
    ensures v / d == q && v % d == r
  {
    var k := q - v / d;
    assert d * k == v % d - r;
    MulSign(d, k);
  }

  lemma MulSign(d: int, k: int)
    requires d > 0
    ensures k >= 1 ==> d * k >= d
    ensures k <= -1 ==> d * k <= -d
  {
    if k >= 1 {
      assert d * k == d + d * (k - 1);
    } else if k <= -1 {
      assert d * k == -d + d * (k + 1);
    }
  }

  lemma TopBit(raw: nat, k: nat)
    requires raw < 2 * Pow2(k)
    ensures Bit(raw, k) <==> raw >= Pow2(k)
  {
    var p := Pow2(k);
    if raw < p {
      DivModUnique(raw, p, 0, raw);
    } else {
      DivModUnique(raw, p, 1, raw - p);
    }
  }

  lemma Pow2Values()
    ensures Pow2(1) == 2 && Pow2(4) == 16 && Pow2(8) == 256
    ensures Pow2(31) == 0x8000_0000 && Pow2(32) == 0x1_0000_0000
  {
    assert Pow2(4) == 16;
    Pow2Add(4, 4);
    Pow2Add(8, 8);
    Pow2Add(16, 16);
  }

  /** The register text decoded as a signed number of 4·|text| bits: the raw
      value, less 2^(4·|text|) when the sign bit is set. None when the text is
      empty or holds a non-hex character (int() raises ValueError). */
  function DecodeRegister(text: string): (r: Option<int>)
    ensures r.Some? <==> |text| > 0 && AllHex(text)
    ensures r.Some? ==>
      var half: int := Pow2(4 * |text| - 1);
      -half <= r.value < half
    ensures r.Some? ==>
      var raw := HexValue(text);
      (r.value == raw || r.value == raw - Pow2(4 * |text|)) &&
      (r.value < 0 <==> raw >= Pow2(4 * |text| - 1))
  {
    if |text| == 0 || !AllHex(text) then None
    else
      var raw := HexValue(text);
      var bits := |text| * 4;
      Pow2Add(bits - 1, 1);
      TopBit(raw, bits - 1);
      if Bit(raw, bits - 1) then Some(raw - Pow2(bits)) else Some(raw)
  }

  /** The L-digit upper-case hex spelling of v modulo 2^(4L): how the
      simulator displays a register holding v. */
  function EncodeRegister(v: int, L: nat): (s: string)
    ensures |s| == L && AllHex(s)
    decreases L
  {
    if L == 0 then ""
    else EncodeRegister(v / 16, L - 1) + [HexChar(v % 16)]
  }

  /** Appending a digit shifts the value up by one hex place. */
  lemma HexValueSnoc(s: string, c: char)
    requires AllHex(s) && IsHexDigit(c)
    ensures AllHex(s + [c]) && HexValue(s + [c]) == HexValue(s) * 16 + HexDigitValue(c)
  {
    var t := s + [c];
    assert t[..|t| - 1] == s;
  }

  lemma Pow2Digit(L: nat)
    requires L >= 1
    ensures Pow2(4 * L) == 16 * Pow2(4 * (L - 1))
  {
    var k := 4 * (L - 1);
    assert Pow2(k + 4) == 2 * Pow2(k + 3);
    assert Pow2(k + 3) == 2 * Pow2(k + 2);
    assert Pow2(k + 2) == 2 * Pow2(k + 1);
    assert Pow2(k + 1) == 2 * Pow2(k);
  }

  /** The last displayed digit is v mod 16, after the display of v / 16. */
  lemma EncodeDigit(v: int, L: nat)
    requires L >= 1
    ensures HexValue(EncodeRegister(v, L)) == HexValue(EncodeRegister(v / 16, L - 1)) * 16 + v % 16
  {
    HexValueSnoc(EncodeRegister(v / 16, L - 1), HexChar(v % 16));
  }

  lemma {:induction false} EncodeValue(v: int, L: nat)
    ensures HexValue(EncodeRegister(v, L)) == v % Pow2(4 * L)
    decreases L
  {
    if L > 0 {
      var m := Pow2(4 * (L - 1));
      EncodeValue(v / 16, L - 1);
      EncodeDigit(v, L);
      ModSplit(v, m);
      Pow2Digit(L);
    }
  }

  lemma ModSplit(v: int, m: nat)
    requires m >= 1
    ensures v % (16 * m) == ((v / 16) % m) * 16 + v % 16
  {
    var q := v / 16;
    var r := v % 16;
    var q2 := q / m;
    var r2 := q % m;
    assert q == m * q2 + r2;
    assert 16 * q == 16 * (m * q2) + 16 * r2;
    assert (16 * m) * q2 == 16 * (m * q2);
    assert v == (16 * m) * q2 + (r2 * 16 + r);
    DivModUnique(v, 16 * m, q2, r2 * 16 + r);
  }

  /** Decoding inverts the simulator's display for every value the register
      can hold: a round trip through EncodeRegister. */
  lemma {:induction false} DecodeEncode(v: int, L: nat)
    requires L >= 1
    requires -(Pow2(4 * L - 1) as int) <= v < Pow2(4 * L - 1)
    ensures DecodeRegister(EncodeRegister(v, L)) == Some(v)
  {
    var s := EncodeRegister(v, L);
    EncodeValue(v, L);
    Pow2Add(4 * L - 1, 1);
    Pow2Values();
    var full := Pow2(4 * L);
    if v < 0 {
      DivModUnique(v, full, -1, v + full);
    } else {
      DivModUnique(v, full, 0, v);
    }
  }

  // ---------------------------------------------------------------------
  // Polling budget

  /** Number of 0.1 s polls after which a run counts as stuck. */
  function PollLimit(maxRunTimeSec: nat): nat { maxRunTimeSec * 10 }

  /** The first poll index j in [k, limit] at which the load button reads as
      enabled, or limit + 1 when there is none. */
  function FirstReady(enabled: nat -> bool, k: nat, limit: nat): (j: nat)
    requires k <= limit + 1
    ensures k <= j <= limit + 1
    ensures j <= limit ==> enabled(j)
    ensures forall i :: k <= i < j ==> !enabled(i)
    decreases limit + 1 - k
  {
    if k > limit then k
    else if enabled(k) then k
    else FirstReady(enabled, k + 1, limit)
  }

  /** The harness's waiting loop. `enabled(i)` is what the i-th call of
      is_enabled() returns. The counter grows by one per unsuccessful poll and
      the run is stuck once it exceeds maxRunTimeSec·10. */
  method Poll(enabled: nat -> bool, maxRunTimeSec: nat)
    returns (stuck: bool, counter: nat, polls: nat)
    ensures polls <= PollLimit(maxRunTimeSec) + 1
    ensures stuck <==> forall i :: 0 <= i <= PollLimit(maxRunTimeSec) ==> !enabled(i)
    ensures stuck ==> counter == PollLimit(maxRunTimeSec) + 1 && polls == counter
    ensures !stuck ==> enabled(counter) && polls == counter + 1
    ensures !stuck ==> forall i :: 0 <= i < counter ==> !enabled(i)
    ensures counter == FirstReady(enabled, 0, PollLimit(maxRunTimeSec))
  {
    var limit := PollLimit(maxRunTimeSec);
    counter := 0;
    stuck := false;
    polls := 1;
    while !enabled(counter)
      invariant counter <= limit
      invariant polls == counter + 1
      invariant forall i :: 0 <= i < counter ==> !enabled(i)
      invariant FirstReady(enabled, 0, limit) == FirstReady(enabled, counter, limit)
      decreases limit - counter
    {
      counter := counter + 1;
      if counter > limit {
        stuck := true;
        polls := counter;
        return;
      }
      polls := polls + 1;
    }
  }

  // ---------------------------------------------------------------------
  // One test case

  /** What the outside world does for one test folder: whether test.in and
      test.out exist, the FRISC text the analyser produced (None when it
      failed or wrote no a.frisc), whether the browser automation raised
      while loading and starting the program, the successive readings of the
      load button, the text of register R6, and the text of test.out. */
  datatype CaseEnv = CaseEnv(
    hasIn: bool,
    hasOut: bool,
    frisc: Option<string>,
    automationFails: bool,
    enabled: nat -> bool,
    register: string,
    expectedText: string)

  datatype FailReason =
    | MissingFixture
    | GenerationFailed
    | AutomationError
    | Stalled
    | BadRegister
    | BadExpected
    | Mismatch(got: int, expected: int)

  datatype Outcome = Passed | Failed(reason: FailReason)

  /** The outcome of one folder plus the number of clicks on the stop
      button it caused. */
  datatype CaseResult = CaseResult(outcome: Outcome, stopClicks: nat)

  /** The simulator's configuration document, as a field list: program text
      plus the fixed clock and memory settings and no I/O units. */
  datatype SimConfig = SimConfig(program: string, cpuFreq: string, memSize: string, ioUnits: seq<string>)

  function BuildSimulatorConfig(frisc: string): (c: SimConfig)
    ensures c.program == frisc && c.cpuFreq == "1000" && c.memSize == "256" && c.ioUnits == []
  {
    SimConfig(frisc, CPU_FREQ, MEM_SIZE, [])
  }

  /** Runs one test folder. A stalled run is stopped once and fails; a run
      that finishes passes exactly when R6, read as two's complement, equals
      the stripped integer in test.out. */
  function RunCase(env: CaseEnv): (r: CaseResult)
    ensures r.stopClicks <= 1
    ensures r.stopClicks == 1 <==> r.outcome == Failed(Stalled)
    ensures r.outcome == Passed <==>
      env.hasIn && env.hasOut && env.frisc.Some? && !env.automationFails &&
      FirstReady(env.enabled, 0, PollLimit(MAX_RUN_TIME_SEC)) <= PollLimit(MAX_RUN_TIME_SEC) &&
      DecodeRegister(env.register).Some? &&
      PythonInt(Strip(env.expectedText)) == DecodeRegister(env.register)
  {
    if !(env.hasIn && env.hasOut) then CaseResult(Failed(MissingFixture), 0)
    else if env.frisc.None? then CaseResult(Failed(GenerationFailed), 0)
    else if env.automationFails then CaseResult(Failed(AutomationError), 0)
    else
      var limit := PollLimit(MAX_RUN_TIME_SEC);
      if FirstReady(env.enabled, 0, limit) > limit then CaseResult(Failed(Stalled), 1)
      else match DecodeRegister(env.register)
        case None => CaseResult(Failed(BadRegister), 0)
        case Some(r6) =>
          match PythonInt(Strip(env.expectedText))
          case None => CaseResult(Failed(BadExpected), 0)
          case Some(expected) =>
            if r6 == expected then CaseResult(Passed, 0)
            else CaseResult(Failed(Mismatch(r6, expected)), 0)
  }

  /** A run that finishes with R6 displaying v and test.out holding v's
      decimal spelling, with surrounding white space, passes. */
  lemma RunCasePasses(env: CaseEnv, v: int)
    requires env.hasIn && env.hasOut && env.frisc.Some? && !env.automationFails
    requires FirstReady(env.enabled, 0, PollLimit(MAX_RUN_TIME_SEC)) <= PollLimit(MAX_RUN_TIME_SEC)
    requires -0x8000_0000 <= v < 0x8000_0000
    requires env.register == EncodeRegister(v, 8) && Strip(env.expectedText) == IntToDecimal(v)
    ensures RunCase(env).outcome == Passed
  {
    Pow2Values();
    DecodeEncode(v, 8);
    PythonIntOfDecimal(v);
  }

  /** A run that finishes with readable values but different numbers fails
      with both numbers recorded. */
  lemma RunCaseMismatch(env: CaseEnv, got: int, expected: int)
    requires env.hasIn && env.hasOut && env.frisc.Some? && !env.automationFails
    requires FirstReady(env.enabled, 0, PollLimit(MAX_RUN_TIME_SEC)) <= PollLimit(MAX_RUN_TIME_SEC)
    requires DecodeRegister(env.register) == Some(got)
    requires PythonInt(Strip(env.expectedText)) == Some(expected)
    requires got != expected
    ensures RunCase(env).outcome == Failed(Mismatch(got, expected))
  {
  }

  // ---------------------------------------------------------------------
  // The whole run

  datatype Summary = Summary(passed: nat, failed: seq<string>)

  /** Folder names whose case failed, in run order. */
  function FailedNames(folders: seq<string>, env: string -> CaseEnv): (r: seq<string>)
    ensures |r| <= |folders|
  {
    if |folders| == 0 then []
    else
      var rest := FailedNames(folders[..|folders| - 1], env);
      var last := folders[|folders| - 1];
      if RunCase(env(last)).outcome == Passed then rest else rest + [last]
  }

  function PassedCount(folders: seq<string>, env: string -> CaseEnv): nat {
    if |folders| == 0 then 0
    else
      var last := folders[|folders| - 1];
      PassedCount(folders[..|folders| - 1], env) + (if RunCase(env(last)).outcome == Passed then 1 else 0)
  }

  lemma {:induction false} TallyCoversEveryFolder(folders: seq<string>, env: string -> CaseEnv)
    ensures PassedCount(folders, env) + |FailedNames(folders, env)| == |folders|
  {
    if |folders| > 0 {
      TallyCoversEveryFolder(folders[..|folders| - 1], env);
    }
  }

  /** The main loop over the test folders from FIRST_FOLDER_OFFSET on. Every
      folder adds exactly one outcome: either the pass counter grows or the
      folder's name is appended to the failure list; the loop never stops
      early. `stopClicks` counts forced stops, one per stalled folder. */
  method RunAll(folders: seq<string>, env: string -> CaseEnv)
    returns (summary: Summary, stopClicks: nat)
    requires FIRST_FOLDER_OFFSET <= |folders|
    ensures summary.passed + |summary.failed| == |folders| - FIRST_FOLDER_OFFSET
    ensures summary.passed == PassedCount(folders[FIRST_FOLDER_OFFSET..], env)
    ensures summary.failed == FailedNames(folders[FIRST_FOLDER_OFFSET..], env)
    ensures stopClicks <= |summary.failed|
    ensures forall name :: name in summary.failed ==> name in folders[FIRST_FOLDER_OFFSET..]
  {
    summary := Summary(0, []);
    stopClicks := 0;
    var i := FIRST_FOLDER_OFFSET;
    while i < |folders|
      invariant FIRST_FOLDER_OFFSET <= i <= |folders|
      invariant summary.passed == PassedCount(folders[FIRST_FOLDER_OFFSET..i], env)
      invariant summary.failed == FailedNames(folders[FIRST_FOLDER_OFFSET..i], env)
      invariant summary.passed + |summary.failed| == i - FIRST_FOLDER_OFFSET
      invariant stopClicks <= |summary.failed|
      invariant forall name :: name in summary.failed ==> name in folders[FIRST_FOLDER_OFFSET..i]
    {
      var name := folders[i];
      var r := RunCase(env(name));
      assert folders[FIRST_FOLDER_OFFSET..i + 1][..i - FIRST_FOLDER_OFFSET] == folders[FIRST_FOLDER_OFFSET..i];
      if r.outcome == Passed {
        summary := summary.(passed := summary.passed + 1);
      } else {
        summary := summary.(failed := summary.failed + [name]);
      }
      stopClicks := stopClicks + r.stopClicks;
      i := i + 1;
    }
    assert folders[FIRST_FOLDER_OFFSET..|folders|] == folders[FIRST_FOLDER_OFFSET..];
  }

  // ---------------------------------------------------------------------
  // Folder discovery

  /** Python's ordering of str values: lexicographic by code point. */
  predicate StrLessEq(a: string, b: string)
    decreases |a|
  {
    |a| == 0 || (|b| > 0 && (a[0] < b[0] || (a[0] == b[0] && StrLessEq(a[1..], b[1..]))))
  }

  lemma StrLessEqTotal(a: string, b: string)
    ensures StrLessEq(a, b) || StrLessEq(b, a)
    decreases |a|
  {
    if |a| > 0 && |b| > 0 && a[0] == b[0] {
      StrLessEqTotal(a[1..], b[1..]);
    }
  }

  lemma StrLessEqTrans(a: string, b: string, c: string)
    requires StrLessEq(a, b) && StrLessEq(b, c)
    ensures StrLessEq(a, c)
    decreases |a|
  {
    if |a| > 0 && |b| > 0 && |c| > 0 && a[0] == b[0] && b[0] == c[0] {
      StrLessEqTrans(a[1..], b[1..], c[1..]);
    }
  }

  predicate Sorted(xs: seq<string>) {
    forall i, j :: 0 <= i < j < |xs| ==> StrLessEq(xs[i], xs[j])
  }

  function Insert(x: string, xs: seq<string>): (r: seq<string>)
    requires Sorted(xs)
    ensures Sorted(r)
    ensures multiset(r) == multiset(xs) + multiset{x}
  {
    if |xs| == 0 then [x]
    else if StrLessEq(x, xs[0]) then
      forall j | 0 < j < |xs| ensures StrLessEq(x, xs[j]) {
        StrLessEqTrans(x, xs[0], xs[j]);
      }
      [x] + xs
    else
      StrLessEqTotal(x, xs[0]);
      var rest := Insert(x, xs[1..]);
      assert xs == [xs[0]] + xs[1..];
      forall j | 0 <= j < |rest| ensures StrLessEq(xs[0], rest[j]) {
        assert rest[j] in multiset(rest);
      }
      [xs[0]] + rest
  }

  /** list.sort() on the directory listing. */
  function SortNames(xs: seq<string>): (r: seq<string>)
    ensures Sorted(r)
    ensures multiset(r) == multiset(xs)
  {
    if |xs| == 0 then []
    else
      assert xs == [xs[0]] + xs[1..];
      Insert(xs[0], SortNames(xs[1..]))
  }

  predicate IsTestFolder(name: string, dirs: set<string>) {
    name in dirs && name != DS_STORE
  }

  function KeepFolders(xs: seq<string>, dirs: set<string>): (r: seq<string>)
    ensures forall x :: multiset(r)[x] == if IsTestFolder(x, dirs) then multiset(xs)[x] else 0
    ensures Sorted(xs) ==> Sorted(r)
  {
    if |xs| == 0 then []
    else
      var rest := KeepFolders(xs[1..], dirs);
      assert xs == [xs[0]] + xs[1..];
      if IsTestFolder(xs[0], dirs) then
        var r := [xs[0]] + rest;
        assert Sorted(xs) ==> Sorted(r) by {
          if Sorted(xs) {
            forall j | 0 <= j < |rest| ensures StrLessEq(xs[0], rest[j]) {
              assert rest[j] in multiset(rest);
              assert rest[j] in multiset(xs[1..]);
            }
          }
        }
        r
      else rest
  }

  /** The test folders: the listing sorted, keeping only directories other
      than .DS_Store. */
  function TestFolders(listing: seq<string>, dirs: set<string>): (r: seq<string>)
    ensures Sorted(r)
    ensures forall x :: x in r ==> x in dirs && x != DS_STORE
    ensures forall x :: x in listing && x in dirs && x != DS_STORE ==> x in r
    ensures forall x :: multiset(r)[x] == if IsTestFolder(x, dirs) then multiset(listing)[x] else 0
  {
    var r := KeepFolders(SortNames(listing), dirs);
    assert forall x :: x in r ==> multiset(r)[x] > 0;
    assert forall x :: x in listing ==> multiset(listing)[x] > 0;
    r
  }

  // ---------------------------------------------------------------------
  // Entry point

  datatype HarnessResult = BuildFailed(stderr: string) | Finished(summary: Summary, stopClicks: nat)

  /** The harness as a whole: a failed build stops everything before the
      browser is opened or any folder is listed; otherwise every test folder
      is run and tallied. */
  method RunHarness(buildOk: bool, buildStderr: string, listing: seq<string>, dirs: set<string>,
                    env: string -> CaseEnv)
    returns (r: HarnessResult)
    ensures !buildOk <==> r == BuildFailed(buildStderr)
    ensures r.Finished? ==>
      r.summary.passed + |r.summary.failed| == |TestFolders(listing, dirs)| - FIRST_FOLDER_OFFSET
    ensures r.Finished? ==> r.summary.failed == FailedNames(TestFolders(listing, dirs), env)
  {
    if !buildOk {
      return BuildFailed(buildStderr);
    }
    var folders := TestFolders(listing, dirs);
    var summary, clicks := RunAll(folders, env);
    return Finished(summary, clicks);
  }

  /** The final report line, "Execution finished: p/t tests passed.". */
  function SummaryLine(s: Summary, folderCount: nat): (line: string)
    requires FIRST_FOLDER_OFFSET <= folderCount
    ensures StartsWith(line, "Execution finished: ")
  {
    Report("Execution finished: ", " tests passed.", s.passed, folderCount - FIRST_FOLDER_OFFSET)
  }

  /** Two counts printed as "p/t" between an opening and a closing text. */
  function Report(open: string, close: string, x: nat, y: nat): (line: string)
    ensures StartsWith(line, open)
  {
    open + IntToDecimal(x) + "/" + IntToDecimal(y) + close
  }

  /** In open + a + "/" + b + close with a free of '/', the first '/' after
      the opening ends a, and what lies between it and the closing is b. */
  lemma SplitAtSlash(open: string, a: string, b: string, close: string)
    requires '/' !in a
    ensures var line := open + a + "/" + b + close;
      var q := |open| + FindChar(line[|open|..], '/');
      && q == |open| + |a| && q + |close| < |line| && line[q] == '/'
      && line[|open|..q] == a && line[q + 1..|line| - |close|] == b
  {
    var line := open + a + "/" + b + close;
    var rest := line[|open|..];
    assert rest == a + "/" + b + close;
    assert rest[..|a|] == a;
    FindCharAt(rest, '/', |a|);
  }

  /** The digits of a natural number hold no '/'. */
  lemma NoSlashInDecimal(n: nat)
    ensures '/' !in IntToDecimal(n)
  {
    assert IntToDecimal(n) == NatToDecimal(n);
    assert AllDigits(NatToDecimal(n));
  }

  /** Where the two numbers lie in a printed line: after the opening, the
      text before the first '/' spells x, and the text between that '/' and
      the closing spells y. */
  lemma ReportParts(open: string, close: string, x: nat, y: nat)
    ensures var line := Report(open, close, x, y);
      var q := |open| + FindChar(line[|open|..], '/');
      && |open| <= q && q + |close| < |line| && line[q] == '/'
      && line[|open|..q] == IntToDecimal(x) && line[q + 1..|line| - |close|] == IntToDecimal(y)
  {
    NoSlashInDecimal(x);
    SplitAtSlash(open, IntToDecimal(x), IntToDecimal(y), close);
  }

  /** Different numbers are spelled differently. */
  lemma DecimalInjective(m: nat, n: nat)
    ensures IntToDecimal(m) == IntToDecimal(n) ==> m == n
  {
    if IntToDecimal(m) == IntToDecimal(n) {
      assert IntToDecimal(m) == NatToDecimal(m) && IntToDecimal(n) == NatToDecimal(n);
      DecimalRoundTrip(m);
      DecimalRoundTrip(n);
    }
  }

  /** The summary line is the two counts printed between the fixed
      opening and closing words: the text before the '/' spells the number
      passed, and the text after it the number of tests (each reads back
      with Python's int, Text.PythonIntOfDecimal). */
  lemma SummaryLineReadsBack(s: Summary, folderCount: nat)
    requires FIRST_FOLDER_OFFSET <= folderCount
    ensures var line := SummaryLine(s, folderCount);
      var p := |"Execution finished: "|;
      var q := p + FindChar(line[p..], '/');
      && q + |" tests passed."| < |line|
      && line[p..q] == IntToDecimal(s.passed)
      && line[q + 1..|line| - |" tests passed."|] == IntToDecimal(folderCount - FIRST_FOLDER_OFFSET)
  {
    ReportParts("Execution finished: ", " tests passed.", s.passed, folderCount - FIRST_FOLDER_OFFSET);
  }

  /** Two lines with the same opening and closing are equal exactly when
      they print the same two counts. */
  lemma ReportCounts(open: string, close: string, x1: nat, y1: nat, x2: nat, y2: nat)
    ensures Report(open, close, x1, y1) == Report(open, close, x2, y2) <==> x1 == x2 && y1 == y2
  {
    if Report(open, close, x1, y1) == Report(open, close, x2, y2) {
      var a1, b1 := IntToDecimal(x1), IntToDecimal(y1);
      var a2, b2 := IntToDecimal(x2), IntToDecimal(y2);
      NoSlashInDecimal(x1);
      NoSlashInDecimal(x2);
      SplitAtSlash(open, a1, b1, close);
      SplitAtSlash(open, a2, b2, close);
      assert a1 == a2 && b1 == b2;
      DecimalInjective(x1, x2);
      DecimalInjective(y1, y2);
    }
  }

  /** Two runs print the same report line exactly when they passed as many
      tests out of as many folders. */
  lemma SummaryLineCounts(s1: Summary, n1: nat, s2: Summary, n2: nat)
    requires FIRST_FOLDER_OFFSET <= n1 && FIRST_FOLDER_OFFSET <= n2
    ensures SummaryLine(s1, n1) == SummaryLine(s2, n2) <==> s1.passed == s2.passed && n1 == n2
  {
    if s1.passed != s2.passed || n1 != n2 {
      var t1, t2 := n1 - FIRST_FOLDER_OFFSET, n2 - FIRST_FOLDER_OFFSET;
      assert t1 != t2 || s1.passed != s2.passed;
      ReportCounts("Execution finished: ", " tests passed.", s1.passed, t1, s2.passed, t2);
      assert Report("Execution finished: ", " tests passed.", s1.passed, t1)
        != Report("Execution finished: ", " tests passed.", s2.passed, t2);
    }
  }

}
