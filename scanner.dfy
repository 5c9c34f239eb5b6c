/** The Yara scan: locating the signature file, then filtering and
    de-duplicating the match records the signature engine yields. */
module Scanner {
  import opened Wrappers
  import opened Messages

  /** The Volatility type name of a process object. */
  const EPROCESS: string := "_EPROCESS"

  /** The exception raised when no signature file can be found. */
  const MissingSignatures := DetectorError("Unable to find a valid Yara signatures file!")

  /** The memory object a hit lies in, reduced to the fields the scan reads. */
  datatype KernelObject = KernelObject(objName: string, uniqueProcessId: int, inheritedFromUniqueProcessId: int)

  /** A Yara hit: the rule that fired and that rule's metadata. */
  datatype Hit = Hit(rule: string, meta: map<string, string>)

  /** One `(o, address, hit, value)` tuple of the engine's match stream;
      `obj` is `None` where the engine found no object (a false `o`). */
  datatype MatchRecord = MatchRecord(obj: Option<KernelObject>, address: int, hit: Hit, value: seq<bv8>)

  /** Which of the two candidate signature files exist on disk. */
  datatype SignatureFiles = SignatureFiles(inWorkingDirectory: bool, inPackagedResources: bool)

  datatype SignatureLocation = WorkingDirectory | PackagedResource

  /** The signature file the scan uses: `signatures.yar` in the working
      directory is preferred over the packaged `rules/signatures.yar`. */
  function ResolveSignatures(files: SignatureFiles): (r: Result<SignatureLocation, DetectorError>)
    ensures r.Failure? <==> !files.inWorkingDirectory && !files.inPackagedResources
    ensures r.Failure? ==> r.error == MissingSignatures
    ensures r == Success(WorkingDirectory) <==> files.inWorkingDirectory
    ensures r == Success(PackagedResource) <==> !files.inWorkingDirectory && files.inPackagedResources
  {
    if files.inWorkingDirectory then Success(WorkingDirectory)
    else if files.inPackagedResources then Success(PackagedResource)
    else Failure(MissingSignatures)
  }

  /** The record lies in a process (an `_EPROCESS` object). */
  predicate InProcess(r: MatchRecord)
  {
    r.obj.Some? && r.obj.value.objName == EPROCESS
  }

  /** The record lies in a process other than the scanner's own. */
  predicate Eligible(r: MatchRecord, ownPid: int)
  {
    InProcess(r) && r.obj.value.uniqueProcessId != ownPid
  }

  /** The results-queue entry built from a process record. */
  function ToMatch(r: MatchRecord): ScanMatch
    requires InProcess(r)
  {
    ScanMatch(r.hit.rule, Get(r.hit.meta, "detection"), Get(r.hit.meta, "description"),
              r.obj.value.uniqueProcessId, r.obj.value.inheritedFromUniqueProcessId)
  }

  /** The rule names of a list of entries, in order. */
  function RulesOf(ms: seq<ScanMatch>): seq<string>
  {
    seq(|ms|, i requires 0 <= i < |ms| => ms[i].rule)
  }

  /** What the scan has posted after the first `n` records of the stream. */
  function ReportUpTo(records: seq<MatchRecord>, ownPid: int, n: nat): seq<ScanMatch>
    requires n <= |records|
  {
    if n == 0 then []
    else
      var previous := ReportUpTo(records, ownPid, n - 1);
      var r := records[n - 1];
      if Eligible(r, ownPid) && r.hit.rule !in RulesOf(previous) then previous + [ToMatch(r)]
      else previous
  }

  /** What the scan posts over the whole stream. */
  function Report(records: seq<MatchRecord>, ownPid: int): seq<ScanMatch>
  {
    ReportUpTo(records, ownPid, |records|)
  }

  // An independent description of the same output: one entry per rule, taken
  // from the first eligible record of that rule, in stream order.

  /** Some eligible record among the first `n` fired `rule`. */
  predicate RuleSeen(records: seq<MatchRecord>, ownPid: int, n: nat, rule: string)
    requires n <= |records|
  {
    exists k :: 0 <= k < n && Eligible(records[k], ownPid) && records[k].hit.rule == rule
  }

  /** Record `j` is eligible and no earlier eligible record fired its rule. */
  predicate FirstOfRule(records: seq<MatchRecord>, ownPid: int, j: nat)
    requires j < |records|
  {
    Eligible(records[j], ownPid) && !RuleSeen(records, ownPid, j, records[j].hit.rule)
  }

  /** The positions below `n` that hold the first eligible record of their rule, ascending. */
  function FirstOccurrences(records: seq<MatchRecord>, ownPid: int, n: nat): (idx: seq<nat>)
    requires n <= |records|
    ensures forall i :: 0 <= i < |idx| ==> idx[i] < n && FirstOfRule(records, ownPid, idx[i])
    ensures forall i, j :: 0 <= i < j < |idx| ==> idx[i] < idx[j]
  {
    if n == 0 then []
    else FirstOccurrences(records, ownPid, n - 1) + (if FirstOfRule(records, ownPid, n - 1) then [n - 1] else [])
  }

  /** Every first eligible record of a rule is among the first occurrences. */
  lemma {:induction false} FirstOccurrencesComplete(records: seq<MatchRecord>, ownPid: int, n: nat, j: nat)
    requires j < n <= |records|
    requires FirstOfRule(records, ownPid, j)
    ensures j in FirstOccurrences(records, ownPid, n)
  {
    if j < n - 1 {
      FirstOccurrencesComplete(records, ownPid, n - 1, j);
    }
  }

  /** The rules already posted are exactly the rules of the eligible records read so far. */
  lemma {:induction false} ReportedRules(records: seq<MatchRecord>, ownPid: int, n: nat, rule: string)
    requires n <= |records|
    ensures rule in RulesOf(ReportUpTo(records, ownPid, n)) <==> RuleSeen(records, ownPid, n, rule)
  {
    if n > 0 {
      var previous := ReportUpTo(records, ownPid, n - 1);
      var r := records[n - 1];
      ReportedRules(records, ownPid, n - 1, rule);
      ReportedRules(records, ownPid, n - 1, r.hit.rule);
      if Eligible(r, ownPid) && r.hit.rule !in RulesOf(previous) {
        assert RulesOf(previous + [ToMatch(r)]) == RulesOf(previous) + [r.hit.rule];
      }
      if RuleSeen(records, ownPid, n, rule) {
        var k :| 0 <= k < n && Eligible(records[k], ownPid) && records[k].hit.rule == rule;
        if k < n - 1 {
          assert RuleSeen(records, ownPid, n - 1, rule);
        }
      }
      if RuleSeen(records, ownPid, n - 1, rule) {
        var k :| 0 <= k < n - 1 && Eligible(records[k], ownPid) && records[k].hit.rule == rule;
        assert RuleSeen(records, ownPid, n, rule);
      }
    }
  }

  /** The scan's output is the first eligible record of each rule, in stream order. */
  lemma {:induction false} ReportIsFirstOccurrences(records: seq<MatchRecord>, ownPid: int, n: nat)
    requires n <= |records|
    ensures var report, idx := ReportUpTo(records, ownPid, n), FirstOccurrences(records, ownPid, n);
      |report| == |idx| && forall i :: 0 <= i < |idx| ==> report[i] == ToMatch(records[idx[i]])
  {
    if n > 0 {
      ReportIsFirstOccurrences(records, ownPid, n - 1);
      ReportedRules(records, ownPid, n - 1, records[n - 1].hit.rule);
    }
  }

  /** No two posted entries share a rule. */
  lemma ReportRulesDistinct(records: seq<MatchRecord>, ownPid: int)
    ensures var report := Report(records, ownPid);
      forall i, j :: 0 <= i < j < |report| ==> report[i].rule != report[j].rule
  {
    var report, idx := Report(records, ownPid), FirstOccurrences(records, ownPid, |records|);
    ReportIsFirstOccurrences(records, ownPid, |records|);
    forall i, j | 0 <= i < j < |report|
      ensures report[i].rule != report[j].rule
    {
      assert idx[i] < idx[j] && Eligible(records[idx[i]], ownPid);
      assert !RuleSeen(records, ownPid, idx[j], records[idx[j]].hit.rule);
    }
  }

  /** No posted entry names the scanner's own process, and each comes from a record of the stream. */
  lemma ReportExcludesOwnProcess(records: seq<MatchRecord>, ownPid: int)
    ensures forall m :: m in Report(records, ownPid) ==>
      m.pid != ownPid && exists j :: 0 <= j < |records| && Eligible(records[j], ownPid) && m == ToMatch(records[j])
  {
    var report, idx := Report(records, ownPid), FirstOccurrences(records, ownPid, |records|);
    ReportIsFirstOccurrences(records, ownPid, |records|);
    forall m | m in report
      ensures m.pid != ownPid
      ensures exists j :: 0 <= j < |records| && Eligible(records[j], ownPid) && m == ToMatch(records[j])
    {
      var i :| 0 <= i < |report| && report[i] == m;
      assert Eligible(records[idx[i]], ownPid);
    }
  }

  /** The scan reports something exactly when some record lies in a process other than its own. */
  lemma ReportNonEmptyIff(records: seq<MatchRecord>, ownPid: int)
    ensures |Report(records, ownPid)| > 0 <==> exists j :: 0 <= j < |records| && Eligible(records[j], ownPid)
  {
    var report := Report(records, ownPid);
    if |report| > 0 {
      assert RulesOf(report)[0] == report[0].rule;
      ReportedRules(records, ownPid, |records|, report[0].rule);
    }
    if j :| 0 <= j < |records| && Eligible(records[j], ownPid) {
      ReportedRules(records, ownPid, |records|, records[j].hit.rule);
      assert RuleSeen(records, ownPid, |records|, records[j].hit.rule);
    }
  }

  /** Removing record `j` from the stream shifts the later prefixes by one. */
  lemma {:induction false} RemovalShift(records: seq<MatchRecord>, ownPid: int, j: nat, n: nat)
    requires j < |records| && !Eligible(records[j], ownPid)
    requires n <= |records|
    ensures var rest := records[..j] + records[j + 1..];
      if n <= j then ReportUpTo(records, ownPid, n) == ReportUpTo(rest, ownPid, n)
      else ReportUpTo(records, ownPid, n) == ReportUpTo(rest, ownPid, n - 1)
  {
    var rest := records[..j] + records[j + 1..];
    if n == 0 {
    } else if n <= j {
      RemovalShift(records, ownPid, j, n - 1);
      assert rest[n - 1] == records[n - 1];
    } else if n == j + 1 {
      RemovalShift(records, ownPid, j, j);
    } else {
      RemovalShift(records, ownPid, j, n - 1);
      assert rest[n - 2] == records[n - 1];
    }
  }

  /** A record with no object, with a non-process object, or in the scanner's
      own process changes nothing: dropping it from the stream gives the same output. */
  lemma IneligibleRecordIgnored(records: seq<MatchRecord>, ownPid: int, j: nat)
    requires j < |records| && !Eligible(records[j], ownPid)
    ensures Report(records, ownPid) == Report(records[..j] + records[j + 1..], ownPid)
  {
    RemovalShift(records, ownPid, j, |records|);
  }

  /** `scan`: resolve the signature file, then walk the match stream once,
      posting the first hit of every rule found in a process other than
      the scanner's own. `pushed` is what this call puts on the results queue. */
  method Scan(records: seq<MatchRecord>, ownPid: int, files: SignatureFiles)
    returns (outcome: Result<bool, DetectorError>, pushed: seq<ScanMatch>)
    ensures outcome.Failure? <==> !files.inWorkingDirectory && !files.inPackagedResources
    ensures outcome.Failure? ==> outcome.error == MissingSignatures && pushed == []
    ensures outcome.Success? ==> pushed == Report(records, ownPid)
    ensures outcome.Success? ==> (outcome.value <==> |pushed| > 0)
    ensures outcome.Success? ==>
      (outcome.value <==> exists j :: 0 <= j < |records| && Eligible(records[j], ownPid))
    ensures forall i, j :: 0 <= i < j < |pushed| ==> pushed[i].rule != pushed[j].rule
    ensures forall m :: m in pushed ==> m.pid != ownPid
  {
    var location := ResolveSignatures(files);
    if location.Failure? {
      return Failure(location.error), [];
    }
    var matched: seq<string> := [];
    pushed := [];
    for i := 0 to |records|
      invariant pushed == ReportUpTo(records, ownPid, i)
      invariant matched == RulesOf(pushed)
    {
      var r := records[i];
      if r.obj.None? {
        continue;
      } else if r.obj.value.objName == EPROCESS {
        if r.obj.value.uniqueProcessId == ownPid {
          continue;
        }
        if r.hit.rule !in matched {
          matched := matched + [r.hit.rule];
          pushed := pushed + [ToMatch(r)];
        }
      }
    }
    ReportRulesDistinct(records, ownPid);
    ReportExcludesOwnProcess(records, ownPid);
    ReportNonEmptyIff(records, ownPid);
    outcome := Success(|matched| > 0);
  }
}
