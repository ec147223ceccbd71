/** The chat panel's reader of a server-sent event stream: text arrives in arbitrary chunks and is
    cut into lines as it comes. It covers the `data: ` field of section 9.2 (Server-sent events) of
    the WHATWG HTML Standard. */
module EventStream {
  import opened Sequences
  import opened Grouping
  import opened Text

  /** JavaScript's `split('\n')`. */
  function Split(s: string): (parts: seq<string>)
    ensures |parts| >= 1
  {
    if s == "" then [""]
    else
      var rest := Split(s[1..]);
      if s[0] == '\n' then [""] + rest else [[s[0]] + rest[0]] + rest[1..]
  }

  function Join(parts: seq<string>): string
    requires |parts| >= 1
  {
    if |parts| == 1 then parts[0] else parts[0] + "\n" + Join(parts[1..])
  }

  lemma {:induction false} SplitHead(s: string)
    requires s != ""
    ensures
      var rest := Split(s[1..]);
      Split(s) == if s[0] == '\n' then [""] + rest else [[s[0]] + rest[0]] + rest[1..]
  {
  }

  lemma {:induction false} JoinStep(c: char, rest: seq<string>)
    requires |rest| >= 1
    ensures Join([""] + rest) == ['\n'] + Join(rest)
    ensures Join([[c] + rest[0]] + rest[1..]) == [c] + Join(rest)
  {
    assert ([""] + rest)[1..] == rest;
    var more := [[c] + rest[0]] + rest[1..];
    assert more[1..] == rest[1..];
    if |rest| == 1 {
      assert Join(more) == more[0];
    } else {
      assert more[0] + "\n" + Join(more[1..]) == [c] + (rest[0] + "\n" + Join(rest[1..]));
    }
  }

  lemma {:induction false} PartsPlain(s: string)
    ensures forall p :: p in Split(s) ==> '\n' !in p
  {
    if s == "" {
      assert Split(s) == [""];
    } else {
      PartsPlain(s[1..]);
      SplitHead(s);
      hide Split;
      var rest := Split(s[1..]);
      assert rest[0] in rest && forall p :: p in rest[1..] ==> p in rest;
    }
  }

  /** Splitting loses nothing and leaves no newline inside a part. */
  lemma {:induction false} SplitJoin(s: string)
    ensures Join(Split(s)) == s
    ensures forall p :: p in Split(s) ==> '\n' !in p
  {
    PartsPlain(s);
    if s == "" {
      assert Split(s) == [""];
    } else {
      hide Split, Join;
      SplitJoin(s[1..]);
      SplitHead(s);
      JoinStep(s[0], Split(s[1..]));
      assert s == [s[0]] + s[1..];
    }
  }

  /** The newline-terminated lines of a text, and what follows the last newline. */
  function Lines(s: string): seq<string> { Split(s)[..|Split(s)| - 1] }

  function Residue(s: string): string { Split(s)[|Split(s)| - 1] }

  lemma {:induction false} SplitPlain(s: string)
    requires '\n' !in s
    ensures Split(s) == [s]
  {
    if s == "" {
    } else {
      assert '\n' !in s[1..];
      SplitPlain(s[1..]);
      assert [s[0]] + s[1..] == s;
    }
  }

  /** Gluing two texts glues the last part of the first to the first part of the second. */
  function Glue(a: seq<string>, b: seq<string>): seq<string>
    requires |a| >= 1 && |b| >= 1
  {
    a[..|a| - 1] + [a[|a| - 1] + b[0]] + b[1..]
  }

  lemma {:induction false} SplitConcat(a: string, b: string)
    ensures Split(a + b) == Glue(Split(a), Split(b))
  {
    if a == "" {
      assert a + b == b;
      GlueNothing(Split(b));
    } else {
      hide Split, Glue;
      SplitConcat(a[1..], b);
      assert (a + b)[0] == a[0] && (a + b)[1..] == a[1..] + b;
      SplitHead(a);
      SplitHead(a + b);
      GlueStep(a[0], Split(a[1..]), Split(b));
    }
  }

  lemma {:induction false} GlueNothing(b: seq<string>)
    requires |b| >= 1
    ensures Split("") == [""] && Glue([""], b) == b
  {
    assert "" + b[0] == b[0];
  }

  lemma {:induction false} GlueStep(c: char, rest: seq<string>, b: seq<string>)
    requires |rest| >= 1 && |b| >= 1
    ensures Glue([""] + rest, b) == [""] + Glue(rest, b)
    ensures Glue([[c] + rest[0]] + rest[1..], b) == [[c] + Glue(rest, b)[0]] + Glue(rest, b)[1..]
  {
    if |rest| == 1 {
      assert [c] + rest[0] + b[0] == [c] + (rest[0] + b[0]);
    }
  }

  /** More text completes the residue and may add lines. */
  lemma {:induction false} SplitAppend(a: string, b: string)
    ensures Lines(a + b) == Lines(a) + Lines(Residue(a) + b)
    ensures Residue(a + b) == Residue(Residue(a) + b)
  {
    hide Split, Glue;
    SplitJoin(a);
    SplitPlain(Residue(a));
    SplitConcat(a, b);
    SplitConcat(Residue(a), b);
    GlueParts(Split(a), Split(b));
  }

  lemma {:induction false} GlueParts(a: seq<string>, b: seq<string>)
    requires |a| >= 1 && |b| >= 1
    ensures
      var whole, tail := Glue(a, b), Glue([a[|a| - 1]], b);
      && whole[..|whole| - 1] == a[..|a| - 1] + tail[..|tail| - 1]
      && whole[|whole| - 1] == tail[|tail| - 1]
  {
  }

  // ----- Events -----

  datatype Source = Source(jobId: string, filename: string, isDirectQuote: bool, excerpt: string)

  /** A parsed payload: its fields are optional; a bare `null` is valid JSON too. */
  datatype Payload = Null | Payload(kind: string, text: Option<string>, answer: Option<string>,
                                    sources: Option<seq<Source>>, threadSummary: Option<string>)

  /** JSON parsing is an arbitrary partial function. */
  type Parser = string -> Option<Payload>

  /** The variables of the loop: the texts shown while waiting, the reply so far, the thrown error. */
  datatype Progress = Progress(shown: seq<string>, answer: string, sources: seq<Source>, threadSummary: string,
                               failure: Option<string>)

  const START := Progress([], "", [], "", None)

  function GetOr<T>(o: Option<T>, default: T): T {
    if o.Some? then o.value else default
  }

  function Handle(st: Progress, e: Payload): Progress {
    if e.Null? then st.(failure := Some("TypeError"))
    else if e.kind == "status" && GetOr(e.text, "") != "" then st.(shown := st.shown + [e.text.value])
    else if e.kind == "done" then
      st.(answer := GetOr(e.answer, ""), sources := GetOr(e.sources, []), threadSummary := GetOr(e.threadSummary, ""))
    else if e.kind == "error" && GetOr(e.text, "") != "" then st.(failure := Some(e.text.value))
    else st
  }

  const FIELD := "data: "

  /** One line: only non-blank `data: ` lines with valid JSON matter; nothing happens after a throw. */
  function ReadLine(parse: Parser, st: Progress, line: string): Progress {
    if st.failure.Some? then st
    else if !(FIELD <= line) then st
    else
      var data := Trim(line[6..]);
      if data == "" || parse(data).None? then st else Handle(st, parse(data).value)
  }

  function ReadLines(parse: Parser, st: Progress, lines: seq<string>): Progress {
    if lines == [] then st
    else ReadLine(parse, ReadLines(parse, st, lines[..|lines| - 1]), lines[|lines| - 1])
  }

  lemma {:induction false} ReadLinesAppend(parse: Parser, st: Progress, a: seq<string>, b: seq<string>)
    ensures ReadLines(parse, st, a + b) == ReadLines(parse, ReadLines(parse, st, a), b)
  {
    if b == [] {
      assert a + b == a;
    } else {
      assert (a + b)[..|a + b| - 1] == a + b[..|b| - 1];
      ReadLinesAppend(parse, st, a, b[..|b| - 1]);
    }
  }

  lemma {:induction false} AfterFailure(parse: Parser, st: Progress, lines: seq<string>)
    requires st.failure.Some?
    ensures ReadLines(parse, st, lines) == st
  {
    if lines == [] {
    } else {
      AfterFailure(parse, st, lines[..|lines| - 1]);
    }
  }

  function Concat(chunks: seq<string>): string {
    if chunks == [] then "" else Concat(chunks[..|chunks| - 1]) + chunks[|chunks| - 1]
  }

  /** How the search ends. */
  datatype Outcome = Reply(answer: string, sources: seq<Source>, threadSummary: string) | Throws(message: string)

  function Conclude(st: Progress): Outcome {
    if st.failure.Some? then Throws(st.failure.value)
    else if st.answer == "" then Throws("Cami did not return a response.")
    else Reply(st.answer, st.sources, st.threadSummary)
  }

  /** The inner loop over the lines of one chunk; it stops at the first throw. */
  method ReadBatch(parse: Parser, st: Progress, lines: seq<string>) returns (r: Progress)
    requires st.failure.None?
    ensures r == ReadLines(parse, st, lines)
  {
    r := st;
    for k := 0 to |lines|
      invariant r == ReadLines(parse, st, lines[..k]) && r.failure.None?
    {
      var line := lines[k];
      assert lines[..k + 1][..k] == lines[..k];
      if !(FIELD <= line) { continue; }
      var data := Trim(line[6..]);
      if data == "" || parse(data).None? { continue; }
      var event := parse(data).value;
      if event.Null? {
        r := r.(failure := Some("TypeError"));
      } else if event.kind == "status" && GetOr(event.text, "") != "" {
        r := r.(shown := r.shown + [event.text.value]);
      } else if event.kind == "done" {
        r := r.(answer := GetOr(event.answer, ""), sources := GetOr(event.sources, []),
                threadSummary := GetOr(event.threadSummary, ""));
      } else if event.kind == "error" && GetOr(event.text, "") != "" {
        r := r.(failure := Some(event.text.value));
      }
      if r.failure.Some? {
        StopsBatch(parse, st, lines, k + 1);
        return;
      }
    }
    assert lines[..|lines|] == lines;
  }

  lemma {:induction false} StopsBatch(parse: Parser, st: Progress, lines: seq<string>, k: nat)
    requires k <= |lines| && ReadLines(parse, st, lines[..k]).failure.Some?
    ensures ReadLines(parse, st, lines) == ReadLines(parse, st, lines[..k])
  {
    assert lines == lines[..k] + lines[k..];
    ReadLinesAppend(parse, st, lines[..k], lines[k..]);
    AfterFailure(parse, ReadLines(parse, st, lines[..k]), lines[k..]);
  }

  /** What the loop has seen after the given chunks, read as one text. */
  function ReadText(parse: Parser, text: string): Progress {
    ReadLines(parse, START, Lines(text))
  }

  lemma {:induction false} MoreText(parse: Parser, text: string, chunk: string)
    ensures ReadText(parse, text + chunk) == ReadLines(parse, ReadText(parse, text), Lines(Residue(text) + chunk))
    ensures Residue(text + chunk) == Residue(Residue(text) + chunk)
    ensures ReadText(parse, text).failure.Some? ==> ReadText(parse, text + chunk) == ReadText(parse, text)
  {
    SplitAppend(text, chunk);
    ReadLinesAppend(parse, START, Lines(text), Lines(Residue(text) + chunk));
    if ReadText(parse, text).failure.Some? {
      AfterFailure(parse, ReadText(parse, text), Lines(Residue(text) + chunk));
    }
  }

  /** After a throw no further chunk matters. */
  lemma {:induction false} StopsStream(parse: Parser, chunks: seq<string>, n: nat)
    requires n <= |chunks| && ReadText(parse, Concat(chunks[..n])).failure.Some?
    ensures ReadText(parse, Concat(chunks)) == ReadText(parse, Concat(chunks[..n]))
    decreases |chunks|
  {
    if n == |chunks| {
      assert chunks[..n] == chunks;
    } else {
      var front := chunks[..|chunks| - 1];
      assert front[..n] == chunks[..n];
      StopsStream(parse, front, n);
      MoreText(parse, Concat(front), chunks[|chunks| - 1]);
    }
  }

  /** The read loop. However the text is cut into chunks, the outcome and the status texts shown are
      those of the whole text's terminated lines; an unterminated last line is never looked at. */
  method ReadStream(parse: Parser, chunks: seq<string>) returns (outcome: Outcome, shown: seq<string>)
    ensures outcome == Conclude(ReadText(parse, Concat(chunks)))
    ensures shown == ReadText(parse, Concat(chunks)).shown
  {
    hide ReadLines, Lines, Residue, ReadText;
    var st, buffer := START, "";
    StartsEmpty(parse);
    for n := 0 to |chunks|
      invariant st == ReadText(parse, Concat(chunks[..n])) && st.failure.None?
      invariant buffer == Residue(Concat(chunks[..n]))
    {
      MoreText(parse, Concat(chunks[..n]), chunks[n]);
      assert chunks[..n + 1][..n] == chunks[..n];
      buffer := buffer + chunks[n];
      var lines := Lines(buffer);
      buffer := Residue(buffer);
      st := ReadBatch(parse, st, lines);
      if st.failure.Some? {
        StopsStream(parse, chunks, n + 1);
        return Throws(st.failure.value), st.shown;
      }
    }
    assert chunks[..|chunks|] == chunks;
    outcome := if st.answer == "" then Throws("Cami did not return a response.")
               else Reply(st.answer, st.sources, st.threadSummary);
    shown := st.shown;
  }

  lemma {:induction false} StartsEmpty(parse: Parser)
    ensures ReadText(parse, "") == START && Residue("") == ""
  {
  }

  // ----- The server's side -----

  /** What the chat route writes for one event. */
  function Encode(json: string): string { FIELD + json + "\n\n" }

  function EncodeAll(events: seq<string>): string {
    if events == [] then "" else EncodeAll(events[..|events| - 1]) + Encode(events[|events| - 1])
  }

  /** Serialised JSON objects hold no raw newline and neither start nor end with white space. */
  ghost predicate Compact(json: string) {
    json != "" && '\n' !in json && !IsSpace(json[0]) && !IsSpace(json[|json| - 1])
  }

  function HandleAll(parse: Parser, st: Progress, events: seq<string>): Progress {
    if events == [] then st
    else
      var before := HandleAll(parse, st, events[..|events| - 1]);
      var last := parse(events[|events| - 1]);
      if before.failure.Some? || last.None? then before else Handle(before, last.value)
  }

  lemma {:induction false} EncodedLines(json: string)
    requires Compact(json)
    ensures Lines(Encode(json)) == [FIELD + json, ""] && Residue(Encode(json)) == ""
  {
    var line := FIELD + json;
    SplitPlain(line);
    SplitConcat(line, "\n\n");
    assert Encode(json) == line + "\n\n";
    assert "\n\n"[1..] == "\n" && "\n"[1..] == "";
    assert Split("\n") == ["", ""];
    assert Split("\n\n") == ["", "", ""];
    assert line + "" == line;
  }

  /** The reader recovers exactly the events the server wrote, in order. */
  lemma {:induction false} ServerStreamReadsBack(parse: Parser, events: seq<string>)
    requires forall e :: e in events ==> Compact(e)
    ensures ReadLines(parse, START, Lines(EncodeAll(events))) == HandleAll(parse, START, events)
    ensures Residue(EncodeAll(events)) == ""
  {
    if events == [] {
    } else {
      var front, json := events[..|events| - 1], events[|events| - 1];
      ServerStreamReadsBack(parse, front);
      SplitAppend(EncodeAll(front), Encode(json));
      EncodedLines(json);
      assert "" + Encode(json) == Encode(json);
      var before := ReadLines(parse, START, Lines(EncodeAll(front)));
      ReadLinesAppend(parse, START, Lines(EncodeAll(front)), [FIELD + json, ""]);
      ReadsOneBack(parse, before, json);
      hide Handle, ReadLine, ReadLines, Residue, Encode, Lines, Compact;
    }
  }

  lemma {:induction false} ReadsOneBack(parse: Parser, before: Progress, json: string)
    requires Compact(json)
    ensures ReadLines(parse, before, [FIELD + json, ""]) ==
            if before.failure.Some? || parse(json).None? then before else Handle(before, parse(json).value)
  {
    hide Handle;
    assert [FIELD + json, ""][..1] == [FIELD + json] && [FIELD + json][..0] == [];
    assert (FIELD + json)[6..] == json && Trim(json) == json;
    assert ReadLines(parse, before, []) == before;
    assert ReadLines(parse, before, [FIELD + json]) == ReadLine(parse, before, FIELD + json);
  }

  // ----- Grouping the sources of a reply -----

  datatype Group = Group(jobId: string, filename: string, isDirectQuote: bool, excerpts: seq<Source>)

  function JobOf(x: Source): string { x.jobId }

  function Excerpts(sources: seq<Source>, id: string): seq<Source> { Members(sources, JobOf, id) }

  /** The one group of an id: all its excerpts in order, named after the first, quoted if any is. */
  ghost predicate IsGroup(g: Group, id: string, sources: seq<Source>) {
    && g.jobId == id && g.excerpts == Excerpts(sources, id) && g.excerpts != []
    && g.filename == g.excerpts[0].filename
    && (g.isDirectQuote <==> exists x :: x in sources && x.jobId == id && x.isDirectQuote)
  }

  /** The groups of the JavaScript map, by id. */
  ghost predicate AreGroups(groups: map<string, Group>, sources: seq<Source>) {
    && (forall id :: id in groups <==> id in Keys(sources, JobOf))
    && (forall id :: id in groups ==> IsGroup(groups[id], id, sources))
  }

  function AddSource(g: Group, x: Source): Group {
    g.(isDirectQuote := g.isDirectQuote || x.isDirectQuote, excerpts := g.excerpts + [x])
  }

  function NewGroup(x: Source): Group { Group(x.jobId, x.filename, x.isDirectQuote, [x]) }

  lemma {:induction false} OtherGroupKept(g: Group, id: string, past: seq<Source>, x: Source)
    requires IsGroup(g, id, past) && x.jobId != id
    ensures IsGroup(g, id, past + [x])
  {
    MembersGrow(past, JobOf, x, id);
  }

  lemma {:induction false} GroupGrows(g: Group, past: seq<Source>, x: Source)
    requires IsGroup(g, x.jobId, past)
    ensures IsGroup(AddSource(g, x), x.jobId, past + [x])
  {
    MembersGrow(past, JobOf, x, x.jobId);
  }

  lemma {:induction false} GroupStarts(past: seq<Source>, x: Source)
    requires x.jobId !in Keys(past, JobOf)
    ensures IsGroup(NewGroup(x), x.jobId, past + [x])
  {
    MembersGrow(past, JobOf, x, x.jobId);
    KeysSpec(past, JobOf);
    NoMembers(past, JobOf, x.jobId);
    assert forall y :: y in past ==> JobOf(y) != x.jobId;
  }

  lemma {:induction false} OthersKept(groups: map<string, Group>, past: seq<Source>, x: Source)
    requires AreGroups(groups, past)
    ensures forall id :: id in groups && id != x.jobId ==> IsGroup(groups[id], id, past + [x])
  {
    hide IsGroup, Keys;
    forall id | id in groups && id != x.jobId ensures IsGroup(groups[id], id, past + [x]) {
      OtherGroupKept(groups[id], id, past, x);
    }
  }

  lemma {:induction false} GroupsGrow(groups: map<string, Group>, past: seq<Source>, x: Source)
    requires AreGroups(groups, past)
    ensures AreGroups(groups[x.jobId := if x.jobId in groups then AddSource(groups[x.jobId], x) else NewGroup(x)], past + [x])
  {
    hide IsGroup, Keys, AddSource, NewGroup;
    KeysGrow(past, JobOf, x);
    OthersKept(groups, past, x);
    if x.jobId in groups {
      GroupGrows(groups[x.jobId], past, x);
    } else {
      GroupStarts(past, x);
    }
  }

  /** `order` is the insertion order of the JavaScript map. */
  method GroupSourcesByAsset(sources: seq<Source>) returns (result: seq<Group>)
    ensures |result| == |Keys(sources, JobOf)|
    ensures forall k :: 0 <= k < |result| ==> IsGroup(result[k], Keys(sources, JobOf)[k], sources)
  {
    var groups: map<string, Group> := map[];
    var order: seq<string> := [];
    for n := 0 to |sources|
      invariant order == Keys(sources[..n], JobOf) && AreGroups(groups, sources[..n])
    {
      var source := sources[n];
      assert sources[..n + 1] == sources[..n] + [source];
      KeysGrow(sources[..n], JobOf, source);
      GroupsGrow(groups, sources[..n], source);
      hide Keys, IsGroup;
      if source.jobId in groups {
        groups := groups[source.jobId := AddSource(groups[source.jobId], source)];
      } else {
        groups := groups[source.jobId := NewGroup(source)];
        order := order + [source.jobId];
      }
    }
    assert sources[..|sources|] == sources;
    result := seq(|order|, k requires 0 <= k < |order| => groups[order[k]]);
  }
}
