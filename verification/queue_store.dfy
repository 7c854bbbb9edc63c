/**
 * The candidate store: the queue file and the rejected file, each a JSON-lines file of
 * candidates. A file is modelled by its lines, each already classified by the JSON decoder
 * as blank, a candidate, or undecodable text.
 */
module QueueStore {
  import opened Results
  import opened QueueTypes
  import Seqs

  /** One line of a JSON-lines file: empty, the encoding of a candidate, or text that does not decode. */
  datatype Line = Blank | Record(candidate: Candidate) | Garbled(err: string)

  /** A JSON-lines file: absent, present but impossible to open, or present with its lines. */
  datatype JsonlFile = Missing | OpenFailed(err: string) | Present(lines: seq<Line>)

  /** Why a read failed: the file could not be opened, or a line (1-based, blanks counted) did not decode. */
  datatype ReadError = OpenError(err: string) | ParseError(lineNum: int, err: string)

  // ---------------------------------------------------------------- reading

  /**
   * `readJSONL` on the lines of a file: blank lines are skipped, every other line must
   * decode, and the first one that does not fails the whole read.
   */
  function DecodeLines(lines: seq<Line>): (r: Result<seq<Candidate>, ReadError>)
    ensures r.Ok? ==> |r.value| <= |lines|
    decreases |lines|
  {
    if lines == [] then Ok([])
    else
      match DecodeLines(lines[..|lines| - 1])
      case Err(e) => Err(e)
      case Ok(cs) =>
        match lines[|lines| - 1]
        case Blank => Ok(cs)
        case Record(c) => Ok(cs + [c])
        case Garbled(e) => Err(ParseError(|lines|, e))
  }

  /** `readJSONL`: a missing file reads as the empty list; one that cannot be opened is an error. */
  function Decoded(f: JsonlFile): Result<seq<Candidate>, ReadError> {
    match f
    case Missing => Ok([])
    case OpenFailed(e) => Err(OpenError(e))
    case Present(lines) => DecodeLines(lines)
  }

  /** Once a prefix of the lines fails to decode, the whole file fails with the same error. */
  lemma {:induction false} DecodePrefixError(lines: seq<Line>, n: nat)
    requires n <= |lines| && DecodeLines(lines[..n]).Err?
    ensures DecodeLines(lines) == DecodeLines(lines[..n])
    decreases |lines| - n
  {
    if n < |lines| {
      assert lines[..n + 1][..n] == lines[..n];
      DecodePrefixError(lines, n + 1);
    } else {
      assert lines[..n] == lines;
    }
  }

  /** Lines that all decode or are blank give a successful read. */
  lemma {:induction false} NoGarbledReads(lines: seq<Line>)
    requires forall k :: 0 <= k < |lines| ==> !lines[k].Garbled?
    ensures DecodeLines(lines).Ok?
    decreases |lines|
  {
    if lines != [] {
      NoGarbledReads(lines[..|lines| - 1]);
    }
  }

  /** The first undecodable line fails the read, and the error names that line. */
  lemma FirstGarbledFails(lines: seq<Line>, k: nat)
    requires k < |lines| && lines[k].Garbled?
    requires forall j :: 0 <= j < k ==> !lines[j].Garbled?
    ensures DecodeLines(lines) == Err(ParseError(k + 1, lines[k].err))
  {
    var prefix := lines[..k + 1];
    assert prefix[..k] == lines[..k];
    NoGarbledReads(lines[..k]);
    assert DecodeLines(prefix) == Err(ParseError(k + 1, lines[k].err));
    DecodePrefixError(lines, k + 1);
  }

  /** A blank line anywhere changes nothing about what a successful read returns. */
  lemma {:induction false} BlankLineIgnored(a: seq<Line>, b: seq<Line>)
    ensures DecodeLines(a + [Blank] + b).Ok? == DecodeLines(a + b).Ok?
    ensures DecodeLines(a + b).Ok? ==> DecodeLines(a + [Blank] + b).value == DecodeLines(a + b).value
    decreases |b|
  {
    if b == [] {
      assert a + [Blank] + b == a + [Blank];
      assert (a + [Blank])[..|a|] == a;
      assert a + b == a;
    } else {
      var init := b[..|b| - 1];
      var x := b[|b| - 1];
      assert (a + [Blank] + b)[..|a + [Blank] + b| - 1] == a + [Blank] + init;
      assert (a + [Blank] + b)[|a + [Blank] + b| - 1] == x;
      assert (a + b)[..|a + b| - 1] == a + init;
      assert (a + b)[|a + b| - 1] == x;
      BlankLineIgnored(a, init);
    }
  }

  /** The lines `writeJSONL` produces for a list of candidates: one record each. */
  function Encode(cs: seq<Candidate>): (lines: seq<Line>)
    ensures |lines| == |cs|
    ensures forall k :: 0 <= k < |cs| ==> lines[k] == Record(cs[k])
  {
    seq(|cs|, k requires 0 <= k < |cs| => Record(cs[k]))
  }

  /** Reading back what was written gives the same candidates in the same order. */
  lemma {:induction false} ReadAfterWrite(cs: seq<Candidate>)
    ensures DecodeLines(Encode(cs)) == Ok(cs)
    decreases |cs|
  {
    if cs != [] {
      var init := cs[..|cs| - 1];
      assert Encode(cs)[..|cs| - 1] == Encode(init);
      ReadAfterWrite(init);
      assert init + [cs[|cs| - 1]] == cs;
    }
  }

  // ---------------------------------------------------------------- writing

  /**
   * `appendJSONL`: the candidate's record added after the existing lines (a missing file
   * is created); a file that cannot be opened is left as it is.
   */
  function AppendRecord(f: JsonlFile, c: Candidate): JsonlFile {
    match f
    case Missing => Present([Record(c)])
    case OpenFailed(_) => f
    case Present(lines) => Present(lines + [Record(c)])
  }

  /** After an append, a read returns what it returned before, plus the candidate at the end. */
  lemma ReadAfterAppend(f: JsonlFile, c: Candidate)
    ensures Decoded(f).Ok? ==> Decoded(AppendRecord(f, c)) == Ok(Decoded(f).value + [c])
    ensures Decoded(f).Err? ==> Decoded(AppendRecord(f, c)) == Decoded(f)
  {
    match f {
      case Missing =>
        assert [Record(c)][..0] == [];
        assert DecodeLines([Record(c)]) == Ok([] + [c]);
      case OpenFailed(_) =>
      case Present(lines) =>
        assert (lines + [Record(c)])[..|lines|] == lines;
        if Decoded(f).Err? {
          DecodePrefixError(lines + [Record(c)], |lines|);
        }
    }
  }

  /** `writeJSONL`: the file recreated with one record per candidate; one that cannot be opened is left as it is. */
  function WriteRecords(f: JsonlFile, cs: seq<Candidate>): JsonlFile {
    if f.OpenFailed? then f else Present(Encode(cs))
  }

  // ---------------------------------------------------------------- queries

  /** The first candidate with the given ID, if any. */
  function FindFirst(cs: seq<Candidate>, id: string): (r: Option<Candidate>)
    ensures r.Some? <==> exists k :: 0 <= k < |cs| && cs[k].id == id
    ensures r.Some? ==> r.value == cs[FirstWithId(cs, id)]
    decreases |cs|
  {
    if cs == [] then None
    else if cs[0].id == id then Some(cs[0])
    else
      var r := FindFirst(cs[1..], id);
      assert forall k :: 0 < k < |cs| ==> cs[k] == cs[1..][k - 1];
      r
  }

  /** The position of the first candidate with the given ID. */
  function FirstWithId(cs: seq<Candidate>, id: string): (k: nat)
    requires exists k :: 0 <= k < |cs| && cs[k].id == id
    ensures k < |cs| && cs[k].id == id
    ensures forall j :: 0 <= j < k ==> cs[j].id != id
    decreases |cs|
  {
    if cs[0].id == id then 0
    else
      assert exists k :: 0 <= k < |cs[1..]| && cs[1..][k].id == id by {
        var k :| 0 <= k < |cs| && cs[k].id == id;
        assert cs[1..][k - 1] == cs[k];
      }
      1 + FirstWithId(cs[1..], id)
  }

  /**
   * The list with the first candidate carrying `c`'s ID replaced by `c`: same length, that
   * one position changed and every other entry as it was.
   */
  function ReplaceFirst(cs: seq<Candidate>, c: Candidate): (r: seq<Candidate>)
    requires exists k :: 0 <= k < |cs| && cs[k].id == c.id
    ensures |r| == |cs|
    ensures r[FirstWithId(cs, c.id)] == c
    ensures forall j :: 0 <= j < |cs| && j != FirstWithId(cs, c.id) ==> r[j] == cs[j]
  {
    cs[FirstWithId(cs, c.id) := c]
  }

  /** The identifier by which a candidate is recognised outside the queue; concepts have none. */
  function ExternalId(c: Candidate): string {
    match c.candidateType
    case Paper => if c.paperData.Some? then c.paperData.value.s2Id else ""
    case Repo => if c.repoData.Some? then c.repoData.value.url else ""
    case CodeLocation => if c.codeLocationData.Some? then c.codeLocationData.value.permalinkUrl else ""
    case Concept => ""
  }

  /** A rejected entry matches: same kind, and its kind-specific data carry that external ID. */
  predicate MatchesExternal(r: Candidate, externalId: string, t: CandidateType) {
    && r.candidateType == t
    && match t
       case Paper => r.paperData.Some? && r.paperData.value.s2Id == externalId
       case Repo => r.repoData.Some? && r.repoData.value.url == externalId
       case CodeLocation => r.codeLocationData.Some? && r.codeLocationData.value.permalinkUrl == externalId
       case Concept => false
  }

  /** A rejected entry blocks a candidate exactly when it is of the same kind and shares a non-empty external ID with it. */
  lemma MatchesExternalId(r: Candidate, c: Candidate)
    requires ExternalId(c) != ""
    ensures MatchesExternal(r, ExternalId(c), c.candidateType)
      <==> r.candidateType == c.candidateType && ExternalId(r) == ExternalId(c)
  {
  }

  predicate AnyMatchesExternal(rs: seq<Candidate>, externalId: string, t: CandidateType) {
    exists k :: 0 <= k < |rs| && MatchesExternal(rs[k], externalId, t)
  }

  function Get(m: map<CandidateType, int>, t: CandidateType): int {
    if t in m then m[t] else 0
  }

  const NoStats: QueueStats := QueueStats(0, 0, 0, 0, map[])

  /** The statistics after one more candidate: the total, its status's count and its kind's count each one higher. */
  function Tally(s: QueueStats, c: Candidate): QueueStats {
    QueueStats(
      s.total + 1,
      s.pending + (if c.status == Pending then 1 else 0),
      s.approved + (if c.status == Approved then 1 else 0),
      s.rejected + (if c.status == Rejected then 1 else 0),
      s.byType[c.candidateType := Get(s.byType, c.candidateType) + 1])
  }

  /** The statistics of a list, tallied in order. */
  function StatsOf(cs: seq<Candidate>): QueueStats
    decreases |cs|
  {
    if cs == [] then NoStats else Tally(StatsOf(cs[..|cs| - 1]), cs[|cs| - 1])
  }

  function StatusIs(s: CandidateStatus): Candidate -> bool {
    (c: Candidate) => c.status == s
  }

  function TypeIs(t: CandidateType): Candidate -> bool {
    (c: Candidate) => c.candidateType == t
  }

  /** The sum of the per-kind counts. */
  function TypeTotal(m: map<CandidateType, int>): int {
    Get(m, Paper) + Get(m, Concept) + Get(m, Repo) + Get(m, CodeLocation)
  }

  /** The total is the number of candidates. */
  lemma {:induction false} StatsTotal(cs: seq<Candidate>)
    ensures StatsOf(cs).total == |cs|
    decreases |cs|
  {
    if cs != [] {
      StatsTotal(cs[..|cs| - 1]);
    }
  }

  /** Each status count is the number of candidates with that status. */
  lemma {:induction false} StatsByStatus(cs: seq<Candidate>)
    ensures StatsOf(cs).pending == Seqs.Count(cs, StatusIs(Pending))
    ensures StatsOf(cs).approved == Seqs.Count(cs, StatusIs(Approved))
    ensures StatsOf(cs).rejected == Seqs.Count(cs, StatusIs(Rejected))
    decreases |cs|
  {
    if cs != [] {
      StatsByStatus(cs[..|cs| - 1]);
    }
  }

  /** Each kind count is the number of candidates of that kind, and a kind is a key exactly when one occurs. */
  lemma {:induction false} StatsByType(cs: seq<Candidate>, t: CandidateType)
    ensures Get(StatsOf(cs).byType, t) == Seqs.Count(cs, TypeIs(t))
    ensures t in StatsOf(cs).byType <==> exists k :: 0 <= k < |cs| && cs[k].candidateType == t
    decreases |cs|
  {
    if cs != [] {
      var init := cs[..|cs| - 1];
      StatsByType(init, t);
      if exists k :: 0 <= k < |init| && init[k].candidateType == t {
        var k :| 0 <= k < |init| && init[k].candidateType == t;
        assert cs[k] == init[k];
      }
      if exists k :: 0 <= k < |cs| && cs[k].candidateType == t {
        var k :| 0 <= k < |cs| && cs[k].candidateType == t;
        if k < |init| {
          assert init[k] == cs[k];
        }
      }
    }
  }

  /** The kind counts add up to the total. */
  lemma {:induction false} StatsTypeTotal(cs: seq<Candidate>)
    ensures TypeTotal(StatsOf(cs).byType) == StatsOf(cs).total
    decreases |cs|
  {
    if cs != [] {
      StatsTypeTotal(cs[..|cs| - 1]);
      TypeTotalBump(StatsOf(cs[..|cs| - 1]).byType, cs[|cs| - 1].candidateType);
    }
  }

  lemma TypeTotalBump(m: map<CandidateType, int>, t: CandidateType)
    ensures TypeTotal(m[t := Get(m, t) + 1]) == TypeTotal(m) + 1
  {
    var m' := m[t := Get(m, t) + 1];
    match t {
      case Paper => assert Get(m', Concept) == Get(m, Concept) && Get(m', Repo) == Get(m, Repo) && Get(m', CodeLocation) == Get(m, CodeLocation);
      case Concept => assert Get(m', Paper) == Get(m, Paper) && Get(m', Repo) == Get(m, Repo) && Get(m', CodeLocation) == Get(m, CodeLocation);
      case Repo => assert Get(m', Paper) == Get(m, Paper) && Get(m', Concept) == Get(m, Concept) && Get(m', CodeLocation) == Get(m, CodeLocation);
      case CodeLocation => assert Get(m', Paper) == Get(m, Paper) && Get(m', Concept) == Get(m, Concept) && Get(m', Repo) == Get(m, Repo);
    }
  }

  // ---------------------------------------------------------------- the store

  /**
   * `Store`: the queue file and the rejected file. The source's store holds only their
   * paths; here it holds what those paths contain.
   */
  class Store {
    var queue: JsonlFile
    var rejected: JsonlFile

    constructor (queue: JsonlFile, rejected: JsonlFile)
      ensures this.queue == queue && this.rejected == rejected
    {
      this.queue := queue;
      this.rejected := rejected;
    }

    /** `ReadAll`: the candidates of the queue file. */
    method ReadAll() returns (r: Result<seq<Candidate>, ReadError>)
      ensures r == Decoded(queue)
    {
      r := ReadJsonl(queue);
    }

    /** `ReadRejected`: the candidates of the rejected file. */
    method ReadRejected() returns (r: Result<seq<Candidate>, ReadError>)
      ensures r == Decoded(rejected)
    {
      r := ReadJsonl(rejected);
    }

    /** `Append`: the candidate added at the end of the queue file; `Some` carries the error. */
    method Append(c: Candidate) returns (err: Option<string>)
      modifies this
      ensures queue == AppendRecord(old(queue), c) && rejected == old(rejected)
      ensures err.Some? <==> old(queue).OpenFailed?
    {
      err := None;
      if queue.OpenFailed? {
        err := Some(queue.err);
      }
      queue := AppendRecord(queue, c);
    }

    /** `AppendRejected`: the candidate added at the end of the rejected file. */
    method AppendRejected(c: Candidate) returns (err: Option<string>)
      modifies this
      ensures rejected == AppendRecord(old(rejected), c) && queue == old(queue)
      ensures err.Some? <==> old(rejected).OpenFailed?
    {
      err := None;
      if rejected.OpenFailed? {
        err := Some(rejected.err);
      }
      rejected := AppendRecord(rejected, c);
    }

    /** `WriteAll`: the queue file replaced by one record per candidate. */
    method WriteAll(cs: seq<Candidate>) returns (err: Option<string>)
      modifies this
      ensures queue == WriteRecords(old(queue), cs) && rejected == old(rejected)
      ensures err.Some? <==> old(queue).OpenFailed?
    {
      err := None;
      if queue.OpenFailed? {
        err := Some(queue.err);
      }
      queue := WriteRecords(queue, cs);
    }

    /** `FindByID`: the first queued candidate with the ID, `None` when there is none. */
    method FindById(id: string) returns (r: Result<Option<Candidate>, ReadError>)
      ensures Decoded(queue).Err? ==> r == Err(Decoded(queue).error)
      ensures Decoded(queue).Ok? ==> r == Ok(FindFirst(Decoded(queue).value, id))
    {
      var candidates := ReadAll();
      if candidates.Err? {
        return Err(candidates.error);
      }
      var cs := candidates.value;
      var i := 0;
      while i < |cs|
        invariant 0 <= i <= |cs|
        invariant forall j :: 0 <= j < i ==> cs[j].id != id
      {
        if cs[i].id == id {
          assert FirstWithId(cs, id) == i;
          return Ok(Some(cs[i]));
        }
        i := i + 1;
      }
      return Ok(None);
    }

    /**
     * `Update`: the first queued candidate with `c`'s ID replaced by `c` and the queue
     * rewritten. A read error, an unknown ID or a write error is reported, and in the
     * first two cases nothing is written.
     */
    method Update(c: Candidate) returns (err: Option<UpdateError>)
      modifies this
      ensures rejected == old(rejected)
      ensures Decoded(old(queue)).Err? ==> err == Some(UpdateReadFailed(Decoded(old(queue)).error)) && queue == old(queue)
      ensures Decoded(old(queue)).Ok? && FindFirst(Decoded(old(queue)).value, c.id).None? ==>
        err == Some(UnknownId(c.id)) && queue == old(queue)
      ensures Decoded(old(queue)).Ok? && FindFirst(Decoded(old(queue)).value, c.id).Some? ==>
        err == None && queue == Present(Encode(ReplaceFirst(Decoded(old(queue)).value, c)))
    {
      var candidates := ReadAll();
      if candidates.Err? {
        return Some(UpdateReadFailed(candidates.error));
      }
      var cs := candidates.value;
      var found := false;
      var i := 0;
      while i < |cs|
        invariant 0 <= i <= |cs|
        invariant forall j :: 0 <= j < i ==> cs[j].id != c.id
        invariant cs == candidates.value
      {
        if cs[i].id == c.id {
          assert FirstWithId(candidates.value, c.id) == i;
          cs := cs[i := c];
          found := true;
          break;
        }
        i := i + 1;
      }
      if !found {
        return Some(UnknownId(c.id));
      }
      // A queue that read successfully was openable, so the rewrite succeeds.
      var _ := WriteAll(cs);
      err := None;
    }

    /** `IsRejected`: whether a rejected entry of that kind carries that external ID. */
    method IsRejected(externalId: string, t: CandidateType) returns (r: Result<bool, ReadError>)
      ensures Decoded(rejected).Err? ==> r == Err(Decoded(rejected).error)
      ensures Decoded(rejected).Ok? ==> r == Ok(AnyMatchesExternal(Decoded(rejected).value, externalId, t))
    {
      var read := ReadRejected();
      if read.Err? {
        return Err(read.error);
      }
      var rs := read.value;
      var i := 0;
      while i < |rs|
        invariant 0 <= i <= |rs|
        invariant forall j :: 0 <= j < i ==> !MatchesExternal(rs[j], externalId, t)
      {
        var c := rs[i];
        i := i + 1;
        if c.candidateType != t {
          continue;
        }
        match t {
          case Paper =>
            if c.paperData.Some? && c.paperData.value.s2Id == externalId {
              return Ok(true);
            }
          case Repo =>
            if c.repoData.Some? && c.repoData.value.url == externalId {
              return Ok(true);
            }
          case CodeLocation =>
            if c.codeLocationData.Some? && c.codeLocationData.value.permalinkUrl == externalId {
              return Ok(true);
            }
          case Concept =>
        }
      }
      return Ok(false);
    }

    /** `GetStats`: the statistics of the queued candidates, tallied one by one. */
    method GetStats() returns (r: Result<QueueStats, ReadError>)
      ensures Decoded(queue).Err? ==> r == Err(Decoded(queue).error)
      ensures Decoded(queue).Ok? ==> r == Ok(StatsOf(Decoded(queue).value))
    {
      var candidates := ReadAll();
      if candidates.Err? {
        return Err(candidates.error);
      }
      var cs := candidates.value;
      var stats := NoStats;
      var i := 0;
      while i < |cs|
        invariant 0 <= i <= |cs|
        invariant stats == StatsOf(cs[..i])
      {
        assert cs[..i + 1][..i] == cs[..i];
        var c := cs[i];
        stats := stats.(total := stats.total + 1);
        stats := stats.(byType := stats.byType[c.candidateType := Get(stats.byType, c.candidateType) + 1]);
        match c.status {
          case Pending => stats := stats.(pending := stats.pending + 1);
          case Approved => stats := stats.(approved := stats.approved + 1);
          case Rejected => stats := stats.(rejected := stats.rejected + 1);
          case Unset =>
        }
        i := i + 1;
      }
      assert cs[..i] == cs;
      return Ok(stats);
    }
  }

  /** Why `Update` failed. */
  datatype UpdateError = UpdateReadFailed(readErr: ReadError) | UnknownId(id: string)

  /** `readJSONL`, line by line: blank lines skipped, the first undecodable line ending the read. */
  method ReadJsonl(f: JsonlFile) returns (r: Result<seq<Candidate>, ReadError>)
    ensures r == Decoded(f)
  {
    match f {
      case Missing =>
        return Ok([]);
      case OpenFailed(e) =>
        return Err(OpenError(e));
      case Present(lines) =>
        var items: seq<Candidate> := [];
        var lineNum := 0;
        while lineNum < |lines|
          invariant 0 <= lineNum <= |lines|
          invariant DecodeLines(lines[..lineNum]) == Ok(items)
        {
          assert lines[..lineNum + 1][..lineNum] == lines[..lineNum];
          var line := lines[lineNum];
          lineNum := lineNum + 1;
          match line {
            case Blank =>
            case Garbled(e) =>
              DecodePrefixError(lines, lineNum);
              return Err(ParseError(lineNum, e));
            case Record(c) =>
              items := items + [c];
          }
        }
        assert lines[..lineNum] == lines;
        return Ok(items);
    }
  }
}
