/** What a chat stream comes to, told from its payloads alone: which texts are shown while waiting, which
    reply is given, and which error is thrown. */
module StreamReply {
  import opened Sequences
  import opened Text
  import opened EventStream

  // ----- The payloads of a stream -----

  /** A line carries data if something is left of it behind its field name. */
  predicate HasData(line: string) {
    FIELD <= line && Trim(line[6..]) != ""
  }

  function DataOf(line: string): string {
    if FIELD <= line then Trim(line[6..]) else ""
  }

  function DataTexts(lines: seq<string>): seq<string> {
    Map(Filter(lines, (line: string) => HasData(line)), DataOf)
  }

  /** The texts that are valid JSON, parsed, in order. */
  function Payloads(parse: Parser, texts: seq<string>): seq<Payload> {
    if texts == [] then []
    else
      var last := parse(texts[|texts| - 1]);
      Payloads(parse, texts[..|texts| - 1]) + if last.Some? then [last.value] else []
  }

  lemma {:induction false} DataTextsMore(lines: seq<string>)
    requires lines != []
    ensures
      var last := lines[|lines| - 1];
      DataTexts(lines) == DataTexts(lines[..|lines| - 1]) + if HasData(last) then [Trim(last[6..])] else []
  {
    FilterLast(lines, (line: string) => HasData(line));
  }

  /** The loop looks at nothing but the data. */
  lemma {:induction false} LinesAreTexts(parse: Parser, lines: seq<string>)
    ensures ReadLines(parse, START, lines) == HandleAll(parse, START, DataTexts(lines))
  {
    if lines == [] {
      assert DataTexts(lines) == [];
    } else {
      hide Handle, DataTexts, Trim;
      var front, last := lines[..|lines| - 1], lines[|lines| - 1];
      LinesAreTexts(parse, front);
      DataTextsMore(lines);
      if HasData(last) {
        var texts := DataTexts(lines);
        assert texts[..|texts| - 1] == DataTexts(front);
      } else {
        assert DataTexts(lines) == DataTexts(front);
      }
    }
  }

  // ----- What they come to -----

  predicate Throwing(p: Payload) {
    p.Null? || (p.kind == "error" && p.text.Some? && p.text.value != "")
  }

  predicate IsStatus(p: Payload) {
    p.Payload? && p.kind == "status" && p.text.Some? && p.text.value != ""
  }

  predicate IsDone(p: Payload) {
    p.Payload? && p.kind == "done"
  }

  /** The payloads before position `n` are harmless; the one at `n`, if any, throws. */
  ghost predicate FirstThrow(ps: seq<Payload>, n: nat) {
    n <= |ps| && (forall k :: 0 <= k < n ==> !Throwing(ps[k])) && (n < |ps| ==> Throwing(ps[n]))
  }

  ghost predicate LastDone(ps: seq<Payload>, d: nat) {
    d < |ps| && IsDone(ps[d]) && forall k :: d < k < |ps| ==> !IsDone(ps[k])
  }

  ghost predicate NoDone(ps: seq<Payload>) {
    forall k :: 0 <= k < |ps| ==> !IsDone(ps[k])
  }

  /** `shown` are the non-empty status texts of `ps`, in order. */
  ghost predicate StatusTexts(shown: seq<string>, ps: seq<Payload>) {
    if ps == [] then shown == []
    else
      var last := ps[|ps| - 1];
      if IsStatus(last) then
        shown != [] && shown[|shown| - 1] == last.text.value && StatusTexts(shown[..|shown| - 1], ps[..|ps| - 1])
      else StatusTexts(shown, ps[..|ps| - 1])
  }

  /** The three fields are those of the last `done` payload, absent ones empty, or all empty without one. */
  ghost predicate ReplyOf(answer: string, sources: seq<Source>, threadSummary: string, ps: seq<Payload>) {
    && (NoDone(ps) ==> answer == "" && sources == [] && threadSummary == "")
    && forall d: nat :: LastDone(ps, d) ==>
         && (if ps[d].answer.Some? then answer == ps[d].answer.value else answer == "")
         && (if ps[d].sources.Some? then sources == ps[d].sources.value else sources == [])
         && (if ps[d].threadSummary.Some? then threadSummary == ps[d].threadSummary.value else threadSummary == "")
  }

  /** The loop's variables after the payloads `ps`, the first of which to throw is at `n`. */
  ghost predicate Tells(st: Progress, ps: seq<Payload>, n: nat)
    requires n <= |ps| && (n < |ps| ==> Throwing(ps[n]))
  {
    && StatusTexts(st.shown, ps[..n])
    && ReplyOf(st.answer, st.sources, st.threadSummary, ps[..n])
    && st.failure == if n == |ps| then None else if ps[n].Null? then Some("TypeError") else Some(ps[n].text.value)
  }

  lemma {:induction false} OneMore(ps: seq<Payload>, p: Payload, st: Progress)
    requires StatusTexts(st.shown, ps) && ReplyOf(st.answer, st.sources, st.threadSummary, ps) && !Throwing(p)
    ensures
      var t := Handle(st, p);
      && StatusTexts(t.shown, ps + [p]) && ReplyOf(t.answer, t.sources, t.threadSummary, ps + [p])
      && t.failure == st.failure
  {
    var t := Handle(st, p);
    OneMoreStatus(ps, p, st);
    hide StatusTexts;
    var all := ps + [p];
    if IsDone(p) {
      forall d: nat | LastDone(all, d) ensures d == |ps| {
      }
      assert all[|ps|] == p && !NoDone(all);
    } else {
      assert NoDone(all) ==> NoDone(ps) by {
        forall k | NoDone(all) && 0 <= k < |ps| ensures !IsDone(ps[k]) {
          assert all[k] == ps[k];
        }
      }
      forall d: nat | LastDone(all, d) ensures LastDone(ps, d) && all[d] == ps[d] {
        assert d != |ps|;
        forall k | d < k < |ps| ensures !IsDone(ps[k]) {
          assert all[k] == ps[k];
        }
      }
    }
  }

  lemma {:induction false} OneMoreStatus(ps: seq<Payload>, p: Payload, st: Progress)
    requires StatusTexts(st.shown, ps) && !Throwing(p)
    ensures StatusTexts(Handle(st, p).shown, ps + [p])
  {
    var t, all := Handle(st, p), ps + [p];
    assert all[..|all| - 1] == ps;
    if IsStatus(p) {
      assert t.shown[..|t.shown| - 1] == st.shown;
    }
  }

  lemma {:induction false} ThrowFails(p: Payload, st: Progress)
    requires Throwing(p)
    ensures Handle(st, p) == st.(failure := if p.Null? then Some("TypeError") else Some(p.text.value))
  {
  }

  lemma {:induction false} ThrownBefore(ps: seq<Payload>, p: Payload, st: Progress, n: nat)
    requires FirstThrow(ps + [p], n) && n < |ps| && Throwing(ps[n]) && Tells(st, ps, n)
    ensures st.failure.Some? && Throwing((ps + [p])[n]) && Tells(st, ps + [p], n)
  {
    hide Throwing, StatusTexts, ReplyOf;
    assert (ps + [p])[..n] == ps[..n];
  }

  lemma {:induction false} ThrownNow(ps: seq<Payload>, p: Payload, st: Progress)
    requires Throwing(p) && Tells(st, ps, |ps|)
    ensures st.failure.None? && (ps + [p])[|ps|] == p && Tells(Handle(st, p), ps + [p], |ps|)
  {
    hide Throwing, StatusTexts, ReplyOf, Handle;
    ThrowFails(p, st);
    assert (ps + [p])[..|ps|] == ps && ps[..|ps|] == ps;
  }

  lemma {:induction false} NotThrown(ps: seq<Payload>, p: Payload, st: Progress)
    requires !Throwing(p) && Tells(st, ps, |ps|)
    ensures st.failure.None? && Tells(Handle(st, p), ps + [p], |ps| + 1)
  {
    hide Throwing, StatusTexts, ReplyOf, Handle;
    assert (ps + [p])[..|ps| + 1] == ps + [p] && ps[..|ps|] == ps;
    OneMore(ps, p, st);
  }

  lemma {:induction false} TextsTell(parse: Parser, texts: seq<string>, n: nat)
    requires FirstThrow(Payloads(parse, texts), n)
    ensures Tells(HandleAll(parse, START, texts), Payloads(parse, texts), n)
  {
    if texts == [] {
      assert Payloads(parse, texts)[..n] == [];
    } else {
      hide Handle, Tells, Throwing;
      var front, last := texts[..|texts| - 1], parse(texts[|texts| - 1]);
      var before, st := Payloads(parse, front), HandleAll(parse, START, front);
      if last.None? {
        assert Payloads(parse, texts) == before;
        TextsTell(parse, front, n);
      } else if n < |before| {
        FrontThrow(before, last.value, n);
        TextsTell(parse, front, n);
        ThrownBefore(before, last.value, st, n);
      } else {
        FrontCalm(before, last.value, n);
        TextsTell(parse, front, |before|);
        if n == |before| {
          ThrownNow(before, last.value, st);
        } else {
          NotThrown(before, last.value, st);
        }
      }
    }
  }

  lemma {:induction false} FrontThrow(ps: seq<Payload>, p: Payload, n: nat)
    requires FirstThrow(ps + [p], n) && n < |ps|
    ensures FirstThrow(ps, n)
  {
    forall k | 0 <= k < n ensures !Throwing(ps[k]) {
      assert (ps + [p])[k] == ps[k];
    }
  }

  lemma {:induction false} FrontCalm(ps: seq<Payload>, p: Payload, n: nat)
    requires FirstThrow(ps + [p], n) && n >= |ps|
    ensures FirstThrow(ps, |ps|) && (n == |ps| <==> Throwing(p))
  {
    forall k | 0 <= k < |ps| ensures !Throwing(ps[k]) {
      assert (ps + [p])[k] == ps[k];
    }
    assert (ps + [p])[|ps|] == p;
  }

  lemma {:induction false} SomeFirstThrow(ps: seq<Payload>) returns (n: nat)
    ensures FirstThrow(ps, n)
  {
    if ps == [] {
      n := 0;
    } else {
      var last := |ps| - 1;
      n := SomeFirstThrow(ps[..last]);
      if n == last && !Throwing(ps[last]) {
        n := |ps|;
      }
    }
  }

  /** How the search ends, told from the payloads. */
  ghost predicate EndsAs(outcome: Outcome, ps: seq<Payload>, n: nat)
    requires n <= |ps| && (n < |ps| ==> Throwing(ps[n]))
  {
    if n < |ps| then outcome == Throws(if ps[n].Null? then "TypeError" else ps[n].text.value)
    else if outcome.Reply? then
      outcome.answer != "" && ReplyOf(outcome.answer, outcome.sources, outcome.threadSummary, ps)
    else
      && outcome.message == "Cami did not return a response."
      && (NoDone(ps) || exists d: nat :: LastDone(ps, d) && (ps[d].answer.None? || ps[d].answer.value == ""))
  }

  lemma {:induction false} SomeLastDone(ps: seq<Payload>) returns (d: nat)
    requires !NoDone(ps)
    ensures LastDone(ps, d)
  {
    var last := |ps| - 1;
    if IsDone(ps[last]) {
      d := last;
    } else {
      d := SomeLastDone(ps[..last]);
    }
  }

  lemma {:induction false} Concludes(st: Progress, ps: seq<Payload>, n: nat)
    requires n <= |ps| && (n < |ps| ==> Throwing(ps[n])) && Tells(st, ps, n)
    ensures EndsAs(Conclude(st), ps, n)
  {
    hide Throwing;
    if n == |ps| {
      assert ps[..n] == ps;
      if st.answer == "" && !NoDone(ps) {
        var d := SomeLastDone(ps);
        assert LastDone(ps, d) && (ps[d].answer.None? || ps[d].answer.value == "");
      }
    }
  }

  /** However a text is cut into chunks: the texts shown are the non-empty status texts before the first
      payload that throws; the search throws what that payload says; without one it gives the last `done`
      payload's answer, sources and summary, or complains if there is no answer. */
  lemma {:induction false} StreamTells(parse: Parser, text: string) returns (n: nat)
    ensures
      var ps := Payloads(parse, DataTexts(Lines(text)));
      var st := ReadText(parse, text);
      && FirstThrow(ps, n) && StatusTexts(st.shown, ps[..n]) && EndsAs(Conclude(st), ps, n)
  {
    hide Payloads, DataTexts, Lines, HandleAll, ReadLines, Conclude, FirstThrow, EndsAs;
    var texts := DataTexts(Lines(text));
    n := SomeFirstThrow(Payloads(parse, texts));
    LinesAreTexts(parse, Lines(text));
    TextsTell(parse, texts, n);
    ThrowRange(Payloads(parse, texts), n);
    Concludes(ReadText(parse, text), Payloads(parse, texts), n);
  }

  lemma {:induction false} ThrowRange(ps: seq<Payload>, n: nat)
    requires FirstThrow(ps, n)
    ensures n <= |ps| && (n < |ps| ==> Throwing(ps[n]))
  {
  }

  /** What the server wrote is what the search ends with: the payloads are the written events, parsed. */
  lemma {:induction false} ServerTells(parse: Parser, events: seq<string>) returns (n: nat)
    requires forall e :: e in events ==> Compact(e)
    ensures
      var ps := Payloads(parse, events);
      var st := ReadText(parse, EncodeAll(events));
      && FirstThrow(ps, n) && StatusTexts(st.shown, ps[..n]) && EndsAs(Conclude(st), ps, n)
  {
    hide Payloads, Lines, HandleAll, ReadLines, Conclude, FirstThrow, EndsAs, Compact, EncodeAll;
    n := SomeFirstThrow(Payloads(parse, events));
    ServerStreamReadsBack(parse, events);
    TextsTell(parse, events, n);
    ThrowRange(Payloads(parse, events), n);
    Concludes(ReadText(parse, EncodeAll(events)), Payloads(parse, events), n);
  }
}
