/** Long-term memory of the chatbot: recall of stored messages by embedding,
    the recent-message window, summaries of recalled messages, loading a
    session's memory files, and the completion call with its retries. */
module Memory {
  import opened Wrappers
  import opened Text
  import opened Slices
  import opened Sorting

  /** An embedding vector. */
  type Vector = seq<real>

  /** The content of one memory file. `score` is absent in a saved record;
      recall adds it to the loaded record it scores. */
  datatype LogRecord = LogRecord(
    speaker: string,
    time: real,
    vector: Vector,
    message: string,
    uuid: string,
    timestring: string,
    score: Option<real>)

  /** The outcome of one request to the completion endpoint. */
  datatype Reply = Ok(text: string) | Failed(reason: string)

  const MaxTokenLimit: nat := 4097
  const MaxTokenResponseLimit: nat := 400
  const MaxRetry: nat := 3

  // ---------------------------------------------------------------------------
  // fetch_memories

  /** The record after the scoring step: a record whose vector equals the query
      vector exactly gets its `score`; any other record is left alone. */
  function ScoreOf(log: LogRecord, vector: Vector, sim: (Vector, Vector) -> real): (r: LogRecord)
    ensures r.(score := log.score) == log
    ensures log.vector != vector ==> r == log
    ensures log.vector == vector ==> r.score == Some(sim(vector, vector))
  {
    if log.vector == vector then log.(score := Some(sim(log.vector, vector))) else log
  }

  /** The logs after the scoring loop has run over all of them. */
  function Scored(logs: seq<LogRecord>, vector: Vector, sim: (Vector, Vector) -> real): (r: seq<LogRecord>)
    ensures |r| == |logs|
    ensures forall i :: 0 <= i < |logs| ==> r[i].(score := logs[i].score) == logs[i]
    ensures forall i :: 0 <= i < |logs| && logs[i].vector != vector ==> r[i] == logs[i]
    ensures forall i :: 0 <= i < |logs| && logs[i].vector == vector ==> r[i].score == Some(sim(vector, vector))
  {
    seq(|logs|, i requires 0 <= i < |logs| => ScoreOf(logs[i], vector, sim))
  }

  /** The records whose vector equals `vector`, in their order. */
  function Matching(logs: seq<LogRecord>, vector: Vector): (r: seq<LogRecord>)
    ensures |r| <= |logs|
  {
    if logs == [] then []
    else Matching(logs[..|logs| - 1], vector)
         + (if logs[|logs| - 1].vector == vector then [logs[|logs| - 1]] else [])
  }

  /** A record whose vector is the query's is among the matching records. */
  lemma {:induction false} MatchingHas(logs: seq<LogRecord>, vector: Vector, rec: LogRecord)
    requires rec in logs && rec.vector == vector
    ensures rec in Matching(logs, vector)
  {
    if rec != logs[|logs| - 1] {
      var init := logs[..|logs| - 1];
      assert logs == init + [logs[|logs| - 1]];
      assert rec in init;
      MatchingHas(init, vector, rec);
    }
  }

  /** The sort key of `sorted(scores, key=lambda d: d['score'], reverse=True)`:
      the negated score, so that the ascending stable sort yields the
      non-increasing, stable order. */
  function ScoreKey(log: LogRecord): real {
    match log.score
    case Some(v) => -v
    case None => 0.0
  }

  /** What `fetch_memories(vector, logs, count)` returns. */
  function Recall(logs: seq<LogRecord>, vector: Vector, count: int, sim: (Vector, Vector) -> real): seq<LogRecord> {
    Slice(SortBy(Matching(Scored(logs, vector, sim), vector), ScoreKey), 0, count)
  }

  /** `fetch_memories`: scores every record whose vector equals the query
      exactly (writing the score into the record in place), sorts the scored
      records by decreasing score and keeps the first `count`. */
  method FetchMemories(vector: Vector, logs: array<LogRecord>, count: int, sim: (Vector, Vector) -> real)
    returns (ordered: seq<LogRecord>)
    modifies logs
    ensures logs[..] == Scored(old(logs[..]), vector, sim)
    ensures ordered == Recall(old(logs[..]), vector, count, sim)
  {
    ghost var logs0 := logs[..];
    ghost var target := Scored(logs0, vector, sim);
    var scores: seq<LogRecord> := [];
    for i := 0 to logs.Length
      invariant forall j :: 0 <= j < i ==> logs[j] == target[j]
      invariant forall j :: i <= j < logs.Length ==> logs[j] == logs0[j]
      invariant scores == Matching(target[..i], vector)
    {
      assert target[i] == ScoreOf(logs0[i], vector, sim);
      if vector == logs[i].vector {
        var score := sim(logs[i].vector, vector);
        logs[i] := logs[i].(score := Some(score));
        scores := scores + [logs[i]];
      }
      assert logs[i] == target[i];
      MatchingPrefix(target, vector, i);
    }
    assert logs[..] == target == target[..logs.Length];
    ordered := SortBy(scores, ScoreKey);
    ordered := Slice(ordered, 0, count);
  }

  /** Extending a prefix by one record extends its matching records by that
      record when its vector is the query's. */
  lemma MatchingPrefix(s: seq<LogRecord>, vector: Vector, i: nat)
    requires i < |s|
    ensures Matching(s[..i + 1], vector) == Matching(s[..i], vector) + (if s[i].vector == vector then [s[i]] else [])
  {
    assert s[..i + 1][..i] == s[..i];
  }

  /** Every record `Matching` keeps has the query vector, and it keeps only
      records of its input. */
  lemma {:induction false} MatchingProps(s: seq<LogRecord>, vector: Vector)
    ensures forall i :: 0 <= i < |Matching(s, vector)| ==> Matching(s, vector)[i].vector == vector
    ensures multiset(Matching(s, vector)) <= multiset(s)
  {
    if s != [] {
      var init := s[..|s| - 1];
      MatchingProps(init, vector);
      assert s == init + [s[|s| - 1]];
    }
  }

  /** Scoring does not change which records match. */
  lemma {:induction false} MatchingScoredLength(logs: seq<LogRecord>, vector: Vector, sim: (Vector, Vector) -> real)
    ensures |Matching(Scored(logs, vector, sim), vector)| == |Matching(logs, vector)|
  {
    if logs != [] {
      var init := logs[..|logs| - 1];
      MatchingScoredLength(init, vector, sim);
      var sc := Scored(logs, vector, sim);
      assert sc[..|sc| - 1] == Scored(init, vector, sim);
      assert sc[|sc| - 1].vector == logs[|logs| - 1].vector;
    }
  }

  /** Every record that passes the gate of the scored logs carries the score
      `sim(vector, vector)`. */
  lemma MatchingScoredScores(logs: seq<LogRecord>, vector: Vector, sim: (Vector, Vector) -> real)
    ensures forall i :: 0 <= i < |Matching(Scored(logs, vector, sim), vector)| ==>
              Matching(Scored(logs, vector, sim), vector)[i].score == Some(sim(vector, vector))
  {
    var sc := Scored(logs, vector, sim);
    var m := Matching(sc, vector);
    MatchingProps(sc, vector);
    forall i | 0 <= i < |m| ensures m[i].score == Some(sim(vector, vector)) {
      assert m[i] in multiset(m);
      assert m[i] in multiset(sc);
      var j :| 0 <= j < |sc| && sc[j] == m[i];
      assert sc[j].vector == logs[j].vector;
    }
  }

  /** Recall returns `count` records when that many qualify, and all of the
      qualifying ones (possibly none) otherwise. */
  lemma RecallBound(logs: seq<LogRecord>, vector: Vector, count: int, sim: (Vector, Vector) -> real)
    ensures |Recall(logs, vector, count, sim)| <= |Matching(logs, vector)|
    ensures 0 <= count ==> |Recall(logs, vector, count, sim)| == Min(count, |Matching(logs, vector)|)
  {
    MatchingScoredLength(logs, vector, sim);
    PrefixSlice(SortBy(Matching(Scored(logs, vector, sim), vector), ScoreKey), count);
  }

  /** A query vector that one of the records carries recalls at least one record. */
  lemma RecallNonEmpty(logs: seq<LogRecord>, vector: Vector, count: int, sim: (Vector, Vector) -> real, rec: LogRecord)
    requires 0 < count && rec in logs && rec.vector == vector
    ensures Recall(logs, vector, count, sim) != []
  {
    MatchingHas(logs, vector, rec);
    RecallBound(logs, vector, count, sim);
  }

  /** Every recalled record has exactly the query vector and the score
      `sim(vector, vector)`, and is one of the (scored) logs. */
  lemma RecallExact(logs: seq<LogRecord>, vector: Vector, count: int, sim: (Vector, Vector) -> real)
    ensures forall i :: 0 <= i < |Recall(logs, vector, count, sim)| ==>
              Recall(logs, vector, count, sim)[i].vector == vector
              && Recall(logs, vector, count, sim)[i].score == Some(sim(vector, vector))
    ensures multiset(Recall(logs, vector, count, sim)) <= multiset(Scored(logs, vector, sim))
  {
    var sc := Scored(logs, vector, sim);
    var m := Matching(sc, vector);
    var sorted := SortBy(m, ScoreKey);
    var r := Recall(logs, vector, count, sim);
    MatchingProps(sc, vector);
    MatchingScoredScores(logs, vector, sim);
    SortPermutes(m, ScoreKey);
    PrefixSlice(sorted, count);
    assert r == sorted[..Bound(count, |sorted|)];
    assert sorted == r + sorted[Bound(count, |sorted|)..];
    assert multiset(r) <= multiset(sorted);
    forall i | 0 <= i < |r| ensures r[i].vector == vector && r[i].score == Some(sim(vector, vector)) {
      assert r[i] == sorted[i];
      assert sorted[i] in multiset(m);
      var j :| 0 <= j < |m| && m[j] == sorted[i];
    }
  }

  /** All qualifying records share one score, so the stable sort keeps them in
      log order: recall is the first `count` records that pass the gate. */
  lemma RecallIsFirstMatches(logs: seq<LogRecord>, vector: Vector, count: int, sim: (Vector, Vector) -> real)
    ensures Recall(logs, vector, count, sim) == Slice(Matching(Scored(logs, vector, sim), vector), 0, count)
  {
    var m := Matching(Scored(logs, vector, sim), vector);
    MatchingScoredScores(logs, vector, sim);
    assert SortedBy(m, ScoreKey) by {
      forall i, j | 0 <= i < j < |m| ensures ScoreKey(m[i]) <= ScoreKey(m[j]) {
        assert ScoreKey(m[i]) == -sim(vector, vector) == ScoreKey(m[j]);
      }
    }
    SortOfSorted(m, ScoreKey);
  }

  /** The recalled records are in non-increasing order of score. */
  lemma RecallOrdered(logs: seq<LogRecord>, vector: Vector, count: int, sim: (Vector, Vector) -> real)
    ensures forall i, j :: 0 <= i < j < |Recall(logs, vector, count, sim)| ==>
              var r := Recall(logs, vector, count, sim);
              r[i].score.Some? && r[j].score.Some? && r[i].score.value >= r[j].score.value
  {
    RecallExact(logs, vector, count, sim);
  }

  // ---------------------------------------------------------------------------
  // get_last_messages and the message blocks

  /** The `message` of each record, in order. */
  function Messages(logs: seq<LogRecord>): (r: seq<string>)
    ensures |r| == |logs| && forall i :: 0 <= i < |logs| ==> r[i] == logs[i].message
  {
    if logs == [] then [] else Messages(logs[..|logs| - 1]) + [logs[|logs| - 1].message]
  }

  /** `sep.join(parts)`. */
  function Join(parts: seq<string>, sep: string): string {
    if parts == [] then ""
    else if |parts| == 1 then parts[0]
    else Join(parts[..|parts| - 1], sep) + sep + parts[|parts| - 1]
  }

  /** What the accumulation loops build: every part followed by a blank line. */
  function Blocks(parts: seq<string>): string {
    if parts == [] then "" else Blocks(parts[..|parts| - 1]) + parts[|parts| - 1] + "\n\n"
  }

  lemma {:induction false} BlocksJoin(parts: seq<string>)
    ensures parts != [] ==> Blocks(parts) == Join(parts, "\n\n") + "\n\n"
  {
    if |parts| > 1 {
      BlocksJoin(parts[..|parts| - 1]);
      assert parts[..|parts| - 1][..|parts| - 2] == parts[..|parts| - 2];
    } else if |parts| == 1 {
      assert parts[..0] == [];
    }
  }

  /** Stripping the accumulated blocks is stripping the joined parts: the
      trailing blank line is whitespace. */
  lemma StripBlocks(parts: seq<string>)
    ensures Strip(Blocks(parts)) == Strip(Join(parts, "\n\n"))
  {
    BlocksJoin(parts);
    if parts != [] {
      var w := "\n\n";
      assert AllSpace(w) by { assert IsSpace(w[0]) && IsSpace(w[1]); }
      StripAppendSpaces(Join(parts, w), w);
    }
  }

  /** `get_last_messages(conversation, limit)`: the messages of the records in
      `conversation[-limit:]`, oldest first, one blank line apart, stripped. */
  method GetLastMessages(conversation: seq<LogRecord>, limit: int) returns (output: string)
    ensures 0 < limit ==>
              output == Strip(Join(Messages(conversation[|conversation| - Min(limit, |conversation|)..]), "\n\n"))
    ensures limit == 0 ==> output == Strip(Join(Messages(conversation), "\n\n"))
    ensures limit < 0 ==> output == Strip(Join(Messages(conversation[Min(-limit, |conversation|)..]), "\n\n"))
    ensures conversation == [] ==> output == ""
  {
    var short := Slice(conversation, -limit, |conversation|);
    TailSlice(conversation, limit);
    output := "";
    for i := 0 to |short|
      invariant output == Blocks(Messages(short[..i]))
    {
      assert short[..i + 1][..i] == short[..i];
      output := output + short[i].message + "\n\n";
    }
    assert short[..|short|] == short;
    StripBlocks(Messages(short));
    output := Strip(output);
  }

  // ---------------------------------------------------------------------------
  // gpt3_completion

  /** `re.sub('[...]+', c, s)` for the character class `cs`: every maximal run
      of characters from `cs` becomes the single character `c`. */
  function CollapseRuns(s: string, cs: set<char>, c: char): string
    decreases |s|
  {
    if s == [] then []
    else if s[0] in cs then [c] + CollapseRuns(DropRun(s, cs), cs, c)
    else [s[0]] + CollapseRuns(s[1..], cs, c)
  }

  /** `s` without its leading run of characters from `cs`. */
  function DropRun(s: string, cs: set<char>): (r: string)
    ensures |r| <= |s| && r == s[|s| - |r|..]
    ensures r != [] ==> r[0] !in cs
    ensures s != [] && s[0] in cs ==> |r| < |s|
  {
    if s != [] && s[0] in cs then DropRun(s[1..], cs) else s
  }

  /** No position holds `a` immediately followed by `b`. */
  predicate NoAdjacent(s: string, a: char, b: char) {
    forall i :: 0 <= i < |s| - 1 ==> !(s[i] == a && s[i + 1] == b)
  }

  lemma CollapseHead(s: string, cs: set<char>, c: char)
    requires s != []
    ensures CollapseRuns(s, cs, c) != []
    ensures CollapseRuns(s, cs, c)[0] == if s[0] in cs then c else s[0]
  {
  }

  /** After collapsing, every character of the class is `c`, no two of them are
      adjacent, and every other character comes from `s`. */
  lemma {:induction false} CollapseRunsProps(s: string, cs: set<char>, c: char)
    requires c in cs
    ensures forall i :: 0 <= i < |CollapseRuns(s, cs, c)| ==>
              var r := CollapseRuns(s, cs, c);
              (r[i] in cs ==> r[i] == c) && (r[i] !in cs ==> r[i] in s)
    ensures forall i :: 0 <= i < |CollapseRuns(s, cs, c)| - 1 ==>
              var r := CollapseRuns(s, cs, c);
              !(r[i] in cs && r[i + 1] in cs)
    decreases |s|
  {
    if s != [] {
      var r := CollapseRuns(s, cs, c);
      var rest := if s[0] in cs then DropRun(s, cs) else s[1..];
      var t := CollapseRuns(rest, cs, c);
      CollapseRunsProps(rest, cs, c);
      assert r == [r[0]] + t;
      assert forall x :: x in rest ==> x in s;
      if t != [] {
        CollapseHead(rest, cs, c);
        assert s[0] in cs ==> t[0] !in cs;
      }
      forall i | 0 <= i < |r| ensures (r[i] in cs ==> r[i] == c) && (r[i] !in cs ==> r[i] in s) {
        if i > 0 { assert r[i] == t[i - 1]; }
      }
      forall i | 0 <= i < |r| - 1 ensures !(r[i] in cs && r[i + 1] in cs) {
        if i > 0 { assert r[i] == t[i - 1] && r[i + 1] == t[i]; }
      }
    }
  }

  /** Collapsing runs of a class that contains neither `a`, `b` nor the
      replacement keeps `a` from being followed by `b`. */
  lemma {:induction false} CollapseKeepsNoAdjacent(s: string, cs: set<char>, c: char, a: char, b: char)
    requires a !in cs && b !in cs && a != c && b != c
    requires NoAdjacent(s, a, b)
    ensures NoAdjacent(CollapseRuns(s, cs, c), a, b)
    decreases |s|
  {
    if s != [] {
      var r := CollapseRuns(s, cs, c);
      var rest := if s[0] in cs then DropRun(s, cs) else s[1..];
      var t := CollapseRuns(rest, cs, c);
      assert NoAdjacent(rest, a, b) by {
        forall i | 0 <= i < |rest| - 1 ensures !(rest[i] == a && rest[i + 1] == b) {
          var k := |s| - |rest|;
          assert rest[i] == s[k + i] && rest[i + 1] == s[k + i + 1];
        }
      }
      CollapseKeepsNoAdjacent(rest, cs, c, a, b);
      assert r == [r[0]] + t;
      if t != [] {
        CollapseHead(rest, cs, c);
        if s[0] !in cs && s[0] == a {
          assert rest[0] == s[1];
        }
      }
      forall i | 0 <= i < |r| - 1 ensures !(r[i] == a && r[i + 1] == b) {
        if i > 0 { assert r[i] == t[i - 1] && r[i + 1] == t[i]; }
      }
    }
  }

  const LineBreaks: set<char> := {'\r', '\n'}
  const Blanks: set<char> := {'\t', ' '}

  /** The normalisation of a completion: strip, then `re.sub('[\r\n]+', '\n', ...)`,
      then `re.sub('[\t ]+', ' ', ...)`. */
  function Clean(text: string): string {
    CollapseRuns(CollapseRuns(Strip(text), LineBreaks, '\n'), Blanks, ' ')
  }

  /** A normalised completion has no carriage return, no tab, no empty line and
      no double space. */
  lemma CleanProps(text: string)
    ensures '\r' !in Clean(text) && '\t' !in Clean(text)
    ensures NoAdjacent(Clean(text), '\n', '\n') && NoAdjacent(Clean(text), ' ', ' ')
  {
    var a := CollapseRuns(Strip(text), LineBreaks, '\n');
    var b := CollapseRuns(a, Blanks, ' ');
    CollapseRunsProps(Strip(text), LineBreaks, '\n');
    CollapseRunsProps(a, Blanks, ' ');
    assert '\r' !in a by {
      forall i | 0 <= i < |a| ensures a[i] != '\r' {
        if a[i] in LineBreaks { assert a[i] == '\n'; }
      }
    }
    forall i | 0 <= i < |b| ensures b[i] != '\r' && b[i] != '\t' {
      if b[i] in Blanks { assert b[i] == ' '; } else { assert b[i] in a; }
    }
    assert NoAdjacent(a, '\n', '\n') by {
      forall i | 0 <= i < |a| - 1 ensures !(a[i] == '\n' && a[i + 1] == '\n') {
        assert !(a[i] in LineBreaks && a[i + 1] in LineBreaks);
      }
    }
    CollapseKeepsNoAdjacent(a, Blanks, ' ', '\n', '\n');
    forall i | 0 <= i < |b| - 1 ensures !(b[i] == ' ' && b[i + 1] == ' ') {
      assert !(b[i] in Blanks && b[i + 1] in Blanks);
    }
  }

  /** The outcome of the retry loop from attempt `k` on, for the already
      sanitised prompt `p`; `complete(p, k)` is the endpoint's reply to the
      `k`-th request. */
  function Attempt(p: string, complete: (string, nat) -> Reply, k: nat): string
    requires k < MaxRetry
    decreases MaxRetry - k
  {
    match complete(p, k)
    case Ok(t) => Clean(t)
    case Failed(e) => if k + 1 >= MaxRetry then "GPT3 error: " + e else Attempt(p, complete, k + 1)
  }

  /** What `gpt3_completion(prompt)` returns. */
  function Completion(prompt: string, complete: (string, nat) -> Reply): string {
    Attempt(AsciiOnly(prompt), complete, 0)
  }

  /** `gpt3_completion`: sends the ASCII-only prompt, retrying after a failure,
      and gives up with an error text after the third failure. `calls` counts
      the requests made. */
  method Gpt3Completion(prompt: string, complete: (string, nat) -> Reply) returns (text: string, ghost calls: nat)
    ensures text == Completion(prompt, complete)
    ensures 1 <= calls <= MaxRetry
    ensures forall k :: 0 <= k < calls - 1 ==> complete(AsciiOnly(prompt), k).Failed?
    ensures calls < MaxRetry ==> complete(AsciiOnly(prompt), calls - 1).Ok?
  {
    var max_retry := MaxRetry;
    var retry := 0;
    var p := AsciiOnly(prompt);
    while true
      invariant 0 <= retry < max_retry
      invariant forall k :: 0 <= k < retry ==> complete(p, k).Failed?
      invariant Attempt(p, complete, retry) == Completion(prompt, complete)
      decreases max_retry - retry
    {
      var reply := complete(p, retry);
      match reply {
        case Ok(t) =>
          text := Clean(t);
          calls := retry + 1;
          return;
        case Failed(oops) =>
          retry := retry + 1;
          if retry >= max_retry {
            text := "GPT3 error: " + oops;
            calls := retry;
            return;
          }
      }
    }
  }

  /** The retry loop asks for at most three completions: two endpoints that
      agree on the first three requests give the same result. */
  lemma CompletionUsesThreeRequests(prompt: string, c1: (string, nat) -> Reply, c2: (string, nat) -> Reply)
    requires forall k :: 0 <= k < MaxRetry ==> c1(AsciiOnly(prompt), k) == c2(AsciiOnly(prompt), k)
    ensures Completion(prompt, c1) == Completion(prompt, c2)
  {
    var p := AsciiOnly(prompt);
    assert c1(p, 0) == c2(p, 0) && c1(p, 1) == c2(p, 1) && c1(p, 2) == c2(p, 2);
  }

  /** The first successful request decides the result, normalised; after three
      failures the result is the error text of the third. */
  lemma CompletionCases(prompt: string, complete: (string, nat) -> Reply)
    ensures var p := AsciiOnly(prompt);
            if complete(p, 0).Ok? then Completion(prompt, complete) == Clean(complete(p, 0).text)
            else if complete(p, 1).Ok? then Completion(prompt, complete) == Clean(complete(p, 1).text)
            else if complete(p, 2).Ok? then Completion(prompt, complete) == Clean(complete(p, 2).text)
            else Completion(prompt, complete) == "GPT3 error: " + complete(p, 2).reason
  {
  }

  /** The prompt actually sent is pure ASCII and is obtained from the given
      prompt by deleting characters. */
  lemma SentPromptIsAscii(prompt: string)
    ensures AllAscii(AsciiOnly(prompt)) && IsSubsequence(AsciiOnly(prompt), prompt)
  {
    AsciiOnlyIsSubsequence(prompt);
  }

  // ---------------------------------------------------------------------------
  // summarize_memories

  const NotesPrefix: string := "Write detailed notes of the following in a hyphenated list format like '-' "
  const NotesSuffix: string := " NOTES:"

  function TimeKey(log: LogRecord): real {
    log.time
  }

  /** The notes prompt around a block of messages. */
  function NotesPrompt(block: string): string {
    NotesPrefix + block + NotesSuffix
  }

  /** The token budget: a prompt whose token count plus the reserved response
      tokens exceeds the model limit is cut to its first `MaxTokenLimit`
      characters (characters, not tokens). */
  function Budget(prompt: string, tokenCount: string -> nat): (r: string)
    ensures |r| <= |prompt| && r == prompt[..|r|]
  {
    if tokenCount(prompt) + MaxTokenResponseLimit > MaxTokenLimit then prompt[..Min(MaxTokenLimit, |prompt|)]
    else prompt
  }

  /** A prompt within budget is sent unchanged; one over budget is cut to at
      most `MaxTokenLimit` characters. */
  lemma BudgetCases(prompt: string, tokenCount: string -> nat)
    ensures tokenCount(prompt) + MaxTokenResponseLimit <= MaxTokenLimit ==> Budget(prompt, tokenCount) == prompt
    ensures tokenCount(prompt) + MaxTokenResponseLimit > MaxTokenLimit ==>
              |Budget(prompt, tokenCount)| == Min(MaxTokenLimit, |prompt|)
  {
  }

  /** The two cases of the token budget determine its result. */
  lemma BudgetOfCases(prompt: string, r: string, tokenCount: string -> nat)
    requires tokenCount(prompt) + MaxTokenResponseLimit <= MaxTokenLimit ==> r == prompt
    requires tokenCount(prompt) + MaxTokenResponseLimit > MaxTokenLimit ==> r == prompt[..Min(MaxTokenLimit, |prompt|)]
    ensures r == Budget(prompt, tokenCount)
  {
  }

  /** The block `summarize_memories` summarises: the messages in chronological
      order, one blank line apart, stripped. */
  function SummaryBlock(memories: seq<LogRecord>): string {
    Strip(Join(Messages(SortBy(memories, TimeKey)), "\n\n"))
  }

  /** What `summarize_memories(memories)` returns. */
  function Summary(memories: seq<LogRecord>, tokenCount: string -> nat, complete: (string, nat) -> Reply): string {
    Completion(Budget(NotesPrompt(SummaryBlock(memories)), tokenCount), complete)
  }

  /** The summarised messages are all the memories, each once, in
      non-decreasing time, records with equal times in their given order. */
  lemma SummaryOrder(memories: seq<LogRecord>, t: real)
    ensures SortedBy(SortBy(memories, TimeKey), TimeKey)
    ensures multiset(SortBy(memories, TimeKey)) == multiset(memories)
    ensures WithKey(SortBy(memories, TimeKey), TimeKey, t) == WithKey(memories, TimeKey, t)
  {
    SortPermutes(memories, TimeKey);
    SortStable(memories, TimeKey, t);
  }

  /** `summarize_memories`: sorts the memories by time, concatenates their
      messages, wraps them in the notes prompt, applies the token budget and
      asks for a completion. */
  method SummarizeMemories(memories: seq<LogRecord>, tokenCount: string -> nat, complete: (string, nat) -> Reply)
    returns (notes: string)
    ensures notes == Summary(memories, tokenCount, complete)
  {
    var sorted := SortBy(memories, TimeKey);
    var block := "";
    for i := 0 to |sorted|
      invariant block == Blocks(Messages(sorted[..i]))
    {
      assert sorted[..i + 1][..i] == sorted[..i];
      block := block + sorted[i].message + "\n\n";
    }
    assert sorted[..|sorted|] == sorted;
    StripBlocks(Messages(sorted));
    block := Strip(block);
    var prompt := FitToBudget(NotesPrefix + block + NotesSuffix, tokenCount);
    BudgetOfCases(NotesPrompt(block), prompt, tokenCount);
    ghost var calls;
    notes, calls := Gpt3Completion(prompt, complete);
  }

  /** The token budget check of `summarize_memories`. */
  method FitToBudget(prompt: string, tokenCount: string -> nat) returns (r: string)
    ensures tokenCount(prompt) + MaxTokenResponseLimit <= MaxTokenLimit ==> r == prompt
    ensures tokenCount(prompt) + MaxTokenResponseLimit > MaxTokenLimit ==> r == prompt[..Min(MaxTokenLimit, |prompt|)]
  {
    r := prompt;
    var tokensForPrompt := tokenCount(r) + MaxTokenResponseLimit;
    if tokensForPrompt > MaxTokenLimit {
      r := r[..Min(MaxTokenLimit, |r|)];
    }
  }

  // ---------------------------------------------------------------------------
  // load_convo

  /** The directory of a session's memory files. */
  function MemoryFolder(sessionFolder: string): string {
    "src\\internal\\memory\\" + sessionFolder
  }

  /** The names that contain `.json` anywhere, in listing order. */
  function JsonFiles(names: seq<string>): (r: seq<string>)
    ensures forall i :: 0 <= i < |r| ==> Occurs(r[i], ".json")
    ensures forall n :: n in names && Occurs(n, ".json") ==> n in r
    ensures forall n :: n in r ==> n in names
  {
    if names == [] then []
    else
      var init := JsonFiles(names[..|names| - 1]);
      assert forall n :: n in names ==> n in names[..|names| - 1] || n == names[|names| - 1];
      init + (if Occurs(names[|names| - 1], ".json") then [names[|names| - 1]] else [])
  }

  /** Reads the files one after the other; the first failing read is the outcome. */
  function ReadAll(folder: string, names: seq<string>, read: string -> Result<LogRecord>): (r: Result<seq<LogRecord>>)
    ensures r.Success? ==> |r.value| == |names|
                           && forall i :: 0 <= i < |names| ==> read(folder + "\\" + names[i]) == Success(r.value[i])
    ensures r.Failure? <==> exists i :: 0 <= i < |names| && read(folder + "\\" + names[i]).Failure?
  {
    if names == [] then Success([])
    else
      var init := names[..|names| - 1];
      var last := names[|names| - 1];
      assert forall i :: 0 <= i < |init| ==> init[i] == names[i];
      match ReadAll(folder, init, read)
      case Failure(e) => Failure(e)
      case Success(rs) =>
        match read(folder + "\\" + last)
        case Failure(e) => Failure(e)
        case Success(rec) => Success(rs + [rec])
  }

  /** What `load_convo(sessionFolder)` returns, for the folder's listing
      (`None` when the folder does not exist) and a file reader. */
  function LoadSpec(sessionFolder: string, listing: Option<seq<string>>, read: string -> Result<LogRecord>): Result<seq<LogRecord>> {
    match listing
    case None => Failure("FileNotFoundError")
    case Some(names) =>
      match ReadAll(MemoryFolder(sessionFolder), JsonFiles(names), read)
      case Failure(e) => Failure(e)
      case Success(records) => Success(SortBy(records, TimeKey))
  }

  /** `load_convo`: lists the session folder, reads every JSON file and sorts
      the records by time. */
  method LoadConvo(sessionFolder: string, listing: Option<seq<string>>, read: string -> Result<LogRecord>)
    returns (r: Result<seq<LogRecord>>)
    ensures r == LoadSpec(sessionFolder, listing, read)
  {
    var filepath := MemoryFolder(sessionFolder);
    if listing.None? {
      return Failure("FileNotFoundError");
    }
    var files := JsonFiles(listing.value);
    var result: seq<LogRecord> := [];
    for i := 0 to |files|
      invariant ReadAll(filepath, files[..i], read) == Success(result)
    {
      assert files[..i + 1][..i] == files[..i];
      var data := read(filepath + "\\" + files[i]);
      if data.Failure? {
        ReadAllPrefixFails(filepath, files, read, i + 1);
        return Failure(data.error);
      }
      result := result + [data.value];
    }
    assert files[..|files|] == files;
    r := Success(SortBy(result, TimeKey));
  }

  /** Once a prefix of the reads fails, reading all of them fails the same way. */
  lemma {:induction false} ReadAllPrefixFails(folder: string, names: seq<string>, read: string -> Result<LogRecord>, n: nat)
    requires n <= |names| && ReadAll(folder, names[..n], read).Failure?
    ensures ReadAll(folder, names, read) == ReadAll(folder, names[..n], read)
    decreases |names| - n
  {
    if n < |names| {
      assert names[..n + 1][..n] == names[..n];
      ReadAllPrefixFails(folder, names, read, n + 1);
    } else {
      assert names[..n] == names;
    }
  }

  /** A successful load holds one record per JSON file, in non-decreasing time,
      and every record read from a JSON file of the listing is among them. */
  lemma LoadProps(sessionFolder: string, names: seq<string>, read: string -> Result<LogRecord>, name: string, rec: LogRecord)
    requires LoadSpec(sessionFolder, Some(names), read).Success?
    ensures var loaded := LoadSpec(sessionFolder, Some(names), read).value;
            |loaded| == |JsonFiles(names)| && SortedBy(loaded, TimeKey)
    ensures name in names && Occurs(name, ".json") && read(MemoryFolder(sessionFolder) + "\\" + name) == Success(rec) ==>
              rec in LoadSpec(sessionFolder, Some(names), read).value
  {
    var files := JsonFiles(names);
    var records := ReadAll(MemoryFolder(sessionFolder), files, read).value;
    SortPermutes(records, TimeKey);
    if name in names && Occurs(name, ".json") && read(MemoryFolder(sessionFolder) + "\\" + name) == Success(rec) {
      var i :| 0 <= i < |files| && files[i] == name;
      assert records[i] == rec;
      assert rec in multiset(records);
    }
  }
}
