/** `_detect_default_gateway` of ui/main.py: scanning the route listing and choosing the
    candidate of least metric with a stable sort. */
module Gateway {
  import opened Bytes

  /** One line of the listing, split at blanks. */
  type Line = seq<string>

  datatype Candidate = Candidate(metric: int, gateway: string)

  const UNKNOWN_METRIC := 9999

  /** A default line through a gateway, as opposed to an on-link one. */
  predicate IsCandidate(line: Line) {
    |line| >= 5 && line[0] == "0.0.0.0" && line[1] == "0.0.0.0" && Lower(line[2]) != "on-link"
  }

  /** `toInt` is Python's `int`, None its ValueError. */
  function Read(line: Line, toInt: string -> Option<int>): Candidate
    requires IsCandidate(line)
  {
    Candidate(match toInt(line[4]) case None => UNKNOWN_METRIC case Some(m) => m, line[2])
  }

  /** `list.sort(key=metric)`: each element goes behind its equals. */
  function Insert(cs: seq<Candidate>, c: Candidate): seq<Candidate> {
    if cs == [] then [c]
    else if c.metric < cs[|cs| - 1].metric then Insert(cs[..|cs| - 1], c) + [cs[|cs| - 1]]
    else cs + [c]
  }

  function StableSort(cs: seq<Candidate>): seq<Candidate> {
    if cs == [] then [] else Insert(StableSort(cs[..|cs| - 1]), cs[|cs| - 1])
  }

  predicate Sorted(cs: seq<Candidate>) {
    forall i, j :: 0 <= i < j < |cs| ==> cs[i].metric <= cs[j].metric
  }

  /** The candidates of one metric, in order: what a stable sort must not disturb. */
  function OfMetric(cs: seq<Candidate>, m: int): seq<Candidate> {
    if cs == [] then []
    else OfMetric(cs[..|cs| - 1], m) + if cs[|cs| - 1].metric == m then [cs[|cs| - 1]] else []
  }

  lemma OfMetricMore(cs: seq<Candidate>, c: Candidate, m: int)
    ensures OfMetric(cs + [c], m) == OfMetric(cs, m) + if c.metric == m then [c] else []
  {
    assert (cs + [c])[..|cs|] == cs;
  }

  lemma {:induction false} InsertMembers(cs: seq<Candidate>, c: Candidate)
    ensures |Insert(cs, c)| == |cs| + 1
    ensures forall d :: d in Insert(cs, c) ==> d in cs || d == c
  {
    if cs != [] && c.metric < cs[|cs| - 1].metric {
      InsertMembers(cs[..|cs| - 1], c);
    }
  }

  lemma {:induction false} InsertSorted(cs: seq<Candidate>, c: Candidate)
    requires Sorted(cs)
    ensures Sorted(Insert(cs, c))
  {
    if cs != [] && c.metric < cs[|cs| - 1].metric {
      var front, last := cs[..|cs| - 1], cs[|cs| - 1];
      InsertSorted(front, c);
      InsertMembers(front, c);
      assert forall d :: d in Insert(front, c) ==> d.metric <= last.metric;
      assert forall i :: 0 <= i < |Insert(front, c)| ==> Insert(front, c)[i] in Insert(front, c);
    }
  }

  lemma {:induction false} InsertStable(cs: seq<Candidate>, c: Candidate, m: int)
    ensures OfMetric(Insert(cs, c), m) == OfMetric(cs, m) + if c.metric == m then [c] else []
  {
    if cs != [] && c.metric < cs[|cs| - 1].metric {
      var front, last := cs[..|cs| - 1], cs[|cs| - 1];
      InsertStable(front, c, m);
      OfMetricMore(Insert(front, c), last, m);
    } else {
      OfMetricMore(cs, c, m);
    }
  }

  /** The sort is a stable sort: ordered by metric, and equals keep their order. */
  lemma {:induction false} StableSortCorrect(cs: seq<Candidate>, m: int)
    ensures Sorted(StableSort(cs)) && |StableSort(cs)| == |cs|
    ensures OfMetric(StableSort(cs), m) == OfMetric(cs, m)
  {
    if cs != [] {
      var before := StableSort(cs[..|cs| - 1]);
      StableSortCorrect(cs[..|cs| - 1], m);
      InsertMembers(before, cs[|cs| - 1]);
      InsertSorted(before, cs[|cs| - 1]);
      InsertStable(before, cs[|cs| - 1], m);
    }
  }

  /** `first` is the earliest candidate of least metric. */
  predicate EarliestLeast(cs: seq<Candidate>, first: nat) {
    first < |cs| &&
    (forall j :: 0 <= j < |cs| ==> cs[first].metric <= cs[j].metric) &&
    (forall j :: 0 <= j < first ==> cs[first].metric < cs[j].metric)
  }

  lemma {:induction false} InsertHead(cs: seq<Candidate>, c: Candidate)
    requires Sorted(cs)
    ensures Insert(cs, c)[0] == if cs == [] || c.metric < cs[0].metric then c else cs[0]
  {
    if cs != [] && c.metric < cs[|cs| - 1].metric {
      InsertHead(cs[..|cs| - 1], c);
      InsertMembers(cs[..|cs| - 1], c);
    }
  }

  lemma LeastMore(cs: seq<Candidate>, c: Candidate, first: nat)
    requires EarliestLeast(cs, first)
    ensures EarliestLeast(cs + [c], if c.metric < cs[first].metric then |cs| else first)
  {
  }

  lemma {:induction false} SortHead(cs: seq<Candidate>) returns (first: nat)
    requires cs != []
    ensures StableSort(cs) != [] && EarliestLeast(cs, first) && StableSort(cs)[0] == cs[first]
  {
    var front, last := cs[..|cs| - 1], cs[|cs| - 1];
    StableSortCorrect(front, last.metric);
    InsertHead(StableSort(front), last);
    InsertMembers(StableSort(front), last);
    if front == [] {
      first := 0;
    } else {
      first := SortHead(front);
      LeastMore(front, last, first);
      assert front + [last] == cs;
      if last.metric < front[first].metric {
        first := |front|;
      }
    }
  }

  /** The line chosen: the earliest default line of least metric. */
  predicate Chosen(lines: seq<Line>, toInt: string -> Option<int>, k: nat) {
    k < |lines| && IsCandidate(lines[k]) &&
    (forall j :: 0 <= j < |lines| && IsCandidate(lines[j]) ==>
       Read(lines[k], toInt).metric <= Read(lines[j], toInt).metric) &&
    (forall j :: 0 <= j < k && IsCandidate(lines[j]) ==>
       Read(lines[k], toInt).metric < Read(lines[j], toInt).metric)
  }

  /** The candidates found so far are those of the lines at `at`, in order. */
  ghost predicate Collected(lines: seq<Line>, toInt: string -> Option<int>, candidates: seq<Candidate>, at: seq<nat>, i: nat) {
    && |at| == |candidates| && i <= |lines|
    && (forall k :: 0 <= k < |at| ==>
          at[k] < i && IsCandidate(lines[at[k]]) && candidates[k] == Read(lines[at[k]], toInt))
    && (forall j, k :: 0 <= j < k < |at| ==> at[j] < at[k])
    && (forall j :: 0 <= j < i && IsCandidate(lines[j]) ==> j in at)
  }

  lemma CollectedMore(lines: seq<Line>, toInt: string -> Option<int>, candidates: seq<Candidate>, at: seq<nat>, i: nat)
    requires Collected(lines, toInt, candidates, at, i) && i < |lines|
    ensures if IsCandidate(lines[i]) then Collected(lines, toInt, candidates + [Read(lines[i], toInt)], at + [i], i + 1)
            else Collected(lines, toInt, candidates, at, i + 1)
  {
  }

  lemma LeastIsChosen(lines: seq<Line>, toInt: string -> Option<int>, candidates: seq<Candidate>, at: seq<nat>, first: nat)
    requires Collected(lines, toInt, candidates, at, |lines|) && EarliestLeast(candidates, first)
    ensures Chosen(lines, toInt, at[first])
  {
  }

  /** The candidates in the order of the lines. */
  function Candidates(lines: seq<Line>, toInt: string -> Option<int>): seq<Candidate> {
    if lines == [] then []
    else
      var last := lines[|lines| - 1];
      Candidates(lines[..|lines| - 1], toInt) + if IsCandidate(last) then [Read(last, toInt)] else []
  }

  /** What the detection finds in a listing; no listing stands for a failed command. */
  function Detected(listing: Option<seq<Line>>, toInt: string -> Option<int>): Option<string> {
    if listing.None? || Candidates(listing.value, toInt) == [] then None
    else
      StableSortCorrect(Candidates(listing.value, toInt), 0);
      Some(StableSort(Candidates(listing.value, toInt))[0].gateway)
  }

  lemma {:induction false} CollectAll(lines: seq<Line>, toInt: string -> Option<int>, i: nat) returns (at: seq<nat>)
    requires i <= |lines|
    ensures Collected(lines, toInt, Candidates(lines[..i], toInt), at, i)
  {
    at := [];
    if i > 0 {
      at := CollectAll(lines, toInt, i - 1);
      CollectedMore(lines, toInt, Candidates(lines[..i - 1], toInt), at, i - 1);
      assert lines[..i][..i - 1] == lines[..i - 1];
      if IsCandidate(lines[i - 1]) {
        at := at + [i - 1];
      }
    }
  }

  lemma {:induction false} DetectedIsChosen(listing: Option<seq<Line>>, toInt: string -> Option<int>)
    ensures Detected(listing, toInt) == None <==>
              listing.None? || forall k :: 0 <= k < |listing.value| ==> !IsCandidate(listing.value[k])
    ensures Detected(listing, toInt).Some? ==>
              exists k :: 0 <= k < |listing.value| && Chosen(listing.value, toInt, k) &&
                Detected(listing, toInt).value == listing.value[k][2]
  {
    if listing.Some? {
      var lines := listing.value;
      var at := CollectAll(lines, toInt, |lines|);
      assert lines[..|lines|] == lines;
      var candidates := Candidates(lines, toInt);
      if candidates != [] {
        var first := SortHead(candidates);
        LeastIsChosen(lines, toInt, candidates, at, first);
      }
    }
  }

  /** None exactly when the command failed or no line starts with two zero words and has a
      gateway for its third; otherwise the third word of the earliest such line of least
      metric, where the fifth word is the metric, or 9999 if it is no number. */
  lemma {:induction false} DetectedExactly(listing: Option<seq<Line>>, toInt: string -> Option<int>)
    ensures Detected(listing, toInt) == None <==>
              listing.None? || forall line :: line in listing.value ==>
                !(|line| >= 5 && line[0] == "0.0.0.0" && line[1] == "0.0.0.0" && Lower(line[2]) != "on-link")
    ensures Detected(listing, toInt).Some? ==>
              exists k :: 0 <= k < |listing.value| && |listing.value[k]| >= 5 &&
                var line := listing.value[k];
                var metric := if toInt(line[4]).Some? then toInt(line[4]).value else 9999;
                line[0] == "0.0.0.0" && line[1] == "0.0.0.0" && Lower(line[2]) != "on-link" &&
                Detected(listing, toInt) == Some(line[2]) &&
                forall j :: 0 <= j < |listing.value| && |listing.value[j]| >= 5 ==>
                  var other := listing.value[j];
                  other[0] == "0.0.0.0" && other[1] == "0.0.0.0" && Lower(other[2]) != "on-link" ==>
                    var least := if toInt(other[4]).Some? then toInt(other[4]).value else 9999;
                    metric < least || (metric == least && k <= j)
  {
    DetectedIsChosen(listing, toInt);
    if listing.Some? {
      forall k | 0 <= k < |listing.value| && !IsCandidate(listing.value[k])
        ensures listing.value[k] in listing.value
      {
      }
    }
  }

  method DetectDefaultGateway(listing: Option<seq<Line>>, toInt: string -> Option<int>) returns (r: Option<string>)
    ensures r == Detected(listing, toInt)
  {
    if listing.None? {
      return None;
    }
    var lines := listing.value;
    var candidates: seq<Candidate> := [];
    for i := 0 to |lines|
      invariant candidates == Candidates(lines[..i], toInt)
    {
      assert lines[..i + 1][..i] == lines[..i];
      if IsCandidate(lines[i]) {
        candidates := candidates + [Read(lines[i], toInt)];
      }
    }
    assert lines[..|lines|] == lines;
    if candidates == [] {
      return None;
    }
    StableSortCorrect(candidates, 0);
    return Some(StableSort(candidates)[0].gateway);
  }
}
