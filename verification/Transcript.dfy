/** The chat transcript: messages, the pairing rule of tool calls and their results, the repair of
    a turn that died, and the in-place replacement of one result by a stub. */
module Transcript {
  import opened Options

  /** What a tool_result holds. The two stub texts and the interruption text are fixed strings
      built from a name, so they are kept as constructors. */
  datatype Body =
    | Payload(text: string)
    | Picture(json: string)
    | Interrupted
    | Unloaded(name: string, asset: Option<string>)
    | Superseded(name: string, asset: Option<string>)
  {
    predicate Stub() {
      Unloaded? || Superseded?
    }

    /** The characters a live result costs the context. */
    function Size(): nat {
      match this
      case Payload(text) => |text|
      case Picture(json) => |json|
      case _ => 0
    }
  }

  datatype Part = Prose(text: string) | ToolUse(id: string, name: string, asset: Option<string>)
  datatype Answer = Answer(id: string, body: Body)
  datatype Message = Prompt(text: string) | Assistant(parts: seq<Part>) | Answers(answers: seq<Answer>)

  // ------------------------------------------------------------ calls and answers

  /** The tool_use blocks of a reply, in order. */
  function ToolUses(parts: seq<Part>): (uses: seq<Part>)
    ensures forall k :: 0 <= k < |uses| ==> uses[k].ToolUse? && uses[k] in parts
    ensures |uses| <= |parts|
  {
    if parts == [] then []
    else if parts[0].ToolUse? then [parts[0]] + ToolUses(parts[1..])
    else ToolUses(parts[1..])
  }

  function Calls(m: Message): seq<Part> {
    if m.Assistant? then ToolUses(m.parts) else []
  }

  /** The results answer the calls one by one, under the same ids. */
  predicate Answering(uses: seq<Part>, answers: seq<Answer>)
    requires forall k :: 0 <= k < |uses| ==> uses[k].ToolUse?
  {
    |answers| == |uses| && forall k :: 0 <= k < |uses| ==> answers[k].id == uses[k].id
  }

  /** Message `i`, if it calls tools, is followed by the results of exactly those calls. */
  predicate AnsweredAt(h: seq<Message>, i: nat)
    requires i < |h|
  {
    Calls(h[i]) != [] ==> i + 1 < |h| && h[i + 1].Answers? && Answering(Calls(h[i]), h[i + 1].answers)
  }

  predicate Paired(h: seq<Message>) {
    forall i :: 0 <= i < |h| ==> AnsweredAt(h, i)
  }

  /** Paired, except perhaps for the last message. */
  predicate PairedButLast(h: seq<Message>) {
    forall i :: 0 <= i < |h| - 1 ==> AnsweredAt(h, i)
  }

  lemma AppendAnswered(h: seq<Message>, m: Message)
    requires Paired(h)
    ensures PairedButLast(h + [m]) && (Calls(m) == [] ==> Paired(h + [m]))
  {
    forall i | 0 <= i < |h|
      ensures AnsweredAt(h + [m], i)
    {
      assert AnsweredAt(h, i);
    }
  }

  lemma AppendAnswers(h: seq<Message>, answers: seq<Answer>)
    requires h != [] && PairedButLast(h) && Answering(Calls(h[|h| - 1]), answers)
    ensures Paired(h + [Answers(answers)])
  {
    var g := h + [Answers(answers)];
    forall i | 0 <= i < |g|
      ensures AnsweredAt(g, i)
    {
      if i < |h| - 1 {
        assert AnsweredAt(h, i);
      }
    }
  }

  // ------------------------------------------------------------ repair

  /** The last message still waits for its results. */
  predicate Dangling(h: seq<Message>) {
    h != [] && Calls(h[|h| - 1]) != []
  }

  /** The synthetic results of calls that never ran to the end. */
  function Interruptions(uses: seq<Part>): (answers: seq<Answer>)
    requires forall k :: 0 <= k < |uses| ==> uses[k].ToolUse?
    ensures Answering(uses, answers)
    ensures forall k :: 0 <= k < |answers| ==> answers[k].body == Interrupted
  {
    seq(|uses|, k requires 0 <= k < |uses| => Answer(uses[k].id, Interrupted))
  }

  function Repair(h: seq<Message>): seq<Message> {
    if Dangling(h) then h + [Answers(Interruptions(Calls(h[|h| - 1])))] else h
  }

  /** Repair restores the pairing of a turn that died between the calls and their results, adds
      at most one message, changes nothing that was paired, and repairing again does nothing. */
  lemma RepairRestores(h: seq<Message>)
    requires PairedButLast(h)
    ensures Paired(Repair(h)) && Repair(Repair(h)) == Repair(h)
    ensures h <= Repair(h) && |Repair(h)| <= |h| + 1
    ensures Repair(h) == h <==> Paired(h)
  {
    if Dangling(h) {
      AppendAnswers(h, Interruptions(Calls(h[|h| - 1])));
      assert !AnsweredAt(h, |h| - 1);
    } else {
      forall i | 0 <= i < |h|
        ensures AnsweredAt(h, i)
      {
        assert i < |h| - 1 ==> AnsweredAt(h, i);
      }
    }
  }

  /** Repair only looks at the last message: a call left open earlier stays open. */
  lemma RepairOnlyTheEnd(h: seq<Message>, i: nat)
    requires i < |h| - 1 && !AnsweredAt(h, i)
    ensures !Paired(Repair(h))
  {
    assert !AnsweredAt(Repair(h), i);
  }

  /** The number of tool_use blocks in the conversation. */
  function CountToolUses(h: seq<Message>): nat {
    if h == [] then 0 else CountToolUses(h[..|h| - 1]) + |Calls(h[|h| - 1])|
  }

  // ------------------------------------------------------------ results by id

  /** Every tool_result of the transcript, oldest first. */
  function AllAnswers(h: seq<Message>): seq<Answer> {
    if h == [] then []
    else AllAnswers(h[..|h| - 1]) + (if h[|h| - 1].Answers? then h[|h| - 1].answers else [])
  }

  lemma {:induction false} AllAnswersAppend(a: seq<Message>, b: seq<Message>)
    ensures AllAnswers(a + b) == AllAnswers(a) + AllAnswers(b)
  {
    if b == [] {
      assert a + b == a;
    } else {
      AllAnswersAppend(a, b[..|b| - 1]);
      assert (a + b)[..|a + b| - 1] == a + b[..|b| - 1];
    }
  }

  /** No id answers twice. */
  predicate Unique(answers: seq<Answer>) {
    forall j, k :: 0 <= j < k < |answers| ==> answers[j].id != answers[k].id
  }

  /** The content of the first result with this id. */
  function Lookup(answers: seq<Answer>, id: string): Option<Body> {
    if answers == [] then None
    else if answers[0].id == id then Some(answers[0].body)
    else Lookup(answers[1..], id)
  }

  lemma {:induction false} LookupAppend(a: seq<Answer>, b: seq<Answer>, id: string)
    ensures Lookup(a + b, id) == if Lookup(a, id).Some? then Lookup(a, id) else Lookup(b, id)
  {
    if a == [] {
      assert a + b == b;
    } else {
      assert (a + b)[1..] == a[1..] + b;
      LookupAppend(a[1..], b, id);
    }
  }

  lemma {:induction false} LookupAt(answers: seq<Answer>, k: nat)
    requires Unique(answers) && k < |answers|
    ensures Lookup(answers, answers[k].id) == Some(answers[k].body)
  {
    if k > 0 {
      LookupAt(answers[1..], k - 1);
    }
  }

  lemma {:induction false} LookupFinds(answers: seq<Answer>, id: string)
    ensures Lookup(answers, id).Some? <==> exists k :: 0 <= k < |answers| && answers[k].id == id
  {
    if answers != [] && answers[0].id != id {
      LookupFinds(answers[1..], id);
      if k :| 0 <= k < |answers| && answers[k].id == id {
        assert answers[1..][k - 1].id == id;
      }
    }
  }

  /** The replacement of the first result with this id in a flat list of results. */
  function ReplaceFirst(answers: seq<Answer>, id: string, body: Body): (r: seq<Answer>)
    ensures |r| == |answers| && forall k :: 0 <= k < |r| ==> r[k].id == answers[k].id
  {
    if answers == [] then []
    else if answers[0].id == id then [Answer(id, body)] + answers[1..]
    else [answers[0]] + ReplaceFirst(answers[1..], id, body)
  }

  lemma {:induction false} LookupReplaced(answers: seq<Answer>, id: string, body: Body, x: string)
    ensures Lookup(ReplaceFirst(answers, id, body), x)
         == if x == id && Lookup(answers, id).Some? then Some(body) else Lookup(answers, x)
  {
    if answers != [] && answers[0].id != id {
      LookupReplaced(answers[1..], id, body, x);
    }
  }

  lemma {:induction false} ReplaceInFirst(a: seq<Answer>, b: seq<Answer>, id: string, body: Body)
    requires Lookup(a, id).Some?
    ensures ReplaceFirst(a + b, id, body) == ReplaceFirst(a, id, body) + b
  {
    assert (a + b)[1..] == a[1..] + b;
    if a[0].id != id {
      ReplaceInFirst(a[1..], b, id, body);
    }
  }

  lemma {:induction false} ReplaceInSecond(a: seq<Answer>, b: seq<Answer>, id: string, body: Body)
    requires Lookup(a, id).None?
    ensures ReplaceFirst(a + b, id, body) == a + ReplaceFirst(b, id, body)
  {
    var r := ReplaceFirst(b, id, body);
    if a == [] {
      assert a + b == b;
      assert a + r == r;
    } else {
      calc {
        ReplaceFirst(a + b, id, body);
        { assert (a + b)[0] == a[0] && a[0].id != id; }
        [a[0]] + ReplaceFirst((a + b)[1..], id, body);
        { assert (a + b)[1..] == a[1..] + b; }
        [a[0]] + ReplaceFirst(a[1..] + b, id, body);
        { ReplaceInSecond(a[1..], b, id, body); }
        [a[0]] + (a[1..] + r);
        a + r;
      }
    }
  }

  /** Equal except for the content of results. */
  predicate SameShape(m: Message, n: Message) {
    if m.Answers? then
      n.Answers? && |n.answers| == |m.answers| && forall k :: 0 <= k < |m.answers| ==>
        n.answers[k].id == m.answers[k].id
    else n == m
  }

  /** `_unload_in_history`: the first result with this id gets the new content. An empty id
      finds nothing. */
  function Unload(h: seq<Message>, id: string, body: Body): (r: seq<Message>)
    ensures |r| == |h| && forall i :: 0 <= i < |h| ==> SameShape(h[i], r[i])
  {
    if h == [] || id == "" then h
    else if h[0].Answers? && Lookup(h[0].answers, id).Some? then
      [Answers(ReplaceFirst(h[0].answers, id, body))] + h[1..]
    else [h[0]] + Unload(h[1..], id, body)
  }

  /** Replacing a result's content keeps every pairing. */
  lemma UnloadKeepsPairs(h: seq<Message>, id: string, body: Body)
    ensures Paired(h) ==> Paired(Unload(h, id, body))
    ensures PairedButLast(h) ==> PairedButLast(Unload(h, id, body))
  {
    var r := Unload(h, id, body);
    forall i | 0 <= i < |h| && AnsweredAt(h, i)
      ensures AnsweredAt(r, i)
    {
      assert SameShape(h[i], r[i]);
      assert i + 1 < |h| ==> SameShape(h[i + 1], r[i + 1]);
    }
  }

  lemma {:induction false} SameCallsSameCount(h: seq<Message>, g: seq<Message>)
    requires |g| == |h| && forall i :: 0 <= i < |h| ==> SameShape(h[i], g[i])
    ensures CountToolUses(g) == CountToolUses(h)
  {
    if h != [] {
      SameCallsSameCount(h[..|h| - 1], g[..|g| - 1]);
    }
  }

  lemma OneMessage(m: Message)
    ensures AllAnswers([m]) == if m.Answers? then m.answers else []
  {
    assert [m][..0] == [];
  }

  /** On the flat list, unloading is one replacement. */
  lemma {:induction false} UnloadFlat(h: seq<Message>, id: string, body: Body)
    requires id != ""
    ensures AllAnswers(Unload(h, id, body)) == ReplaceFirst(AllAnswers(h), id, body)
  {
    if h != [] {
      var own := if h[0].Answers? then h[0].answers else [];
      var rest := AllAnswers(h[1..]);
      assert h == [h[0]] + h[1..];
      OneMessage(h[0]);
      AllAnswersAppend([h[0]], h[1..]);
      if h[0].Answers? && Lookup(h[0].answers, id).Some? {
        var m := Answers(ReplaceFirst(h[0].answers, id, body));
        AllAnswersAppend([m], h[1..]);
        OneMessage(m);
        ReplaceInFirst(own, rest, id, body);
      } else {
        UnloadFlat(h[1..], id, body);
        AllAnswersAppend([h[0]], Unload(h[1..], id, body));
        ReplaceInSecond(own, rest, id, body);
      }
    }
  }

  /** What the transcript holds under an id. */
  function Held(h: seq<Message>, id: string): Option<Body> {
    Lookup(AllAnswers(h), id)
  }

  /** Unloading changes the content under one id and nothing else, and no id at all. */
  lemma UnloadHeld(h: seq<Message>, id: string, body: Body, x: string)
    requires id != ""
    ensures Held(Unload(h, id, body), x) == if x == id && Held(h, id).Some? then Some(body) else Held(h, x)
    ensures Unique(AllAnswers(h)) ==> Unique(AllAnswers(Unload(h, id, body)))
  {
    UnloadFlat(h, id, body);
    LookupReplaced(AllAnswers(h), id, body, x);
  }

  lemma AppendAll(h: seq<Message>, m: Message)
    ensures AllAnswers(h + [m]) == AllAnswers(h) + (if m.Answers? then m.answers else [])
  {
    assert (h + [m])[..|h|] == h;
  }

  lemma AppendOther(h: seq<Message>, m: Message)
    requires !m.Answers?
    ensures AllAnswers(h + [m]) == AllAnswers(h)
  {
    AppendAll(h, m);
  }

  /** New results with new ids leave what was held as it was. */
  lemma AppendHeld(h: seq<Message>, answers: seq<Answer>, x: string)
    requires Unique(AllAnswers(h)) && Unique(answers)
    requires forall k :: 0 <= k < |answers| ==> Held(h, answers[k].id).None?
    ensures Unique(AllAnswers(h + [Answers(answers)]))
    ensures Held(h + [Answers(answers)], x) == if Held(h, x).Some? then Held(h, x) else Lookup(answers, x)
  {
    AppendAll(h, Answers(answers));
    LookupAppend(AllAnswers(h), answers, x);
    forall j, k | 0 <= j < |AllAnswers(h)| && 0 <= k < |answers|
      ensures AllAnswers(h)[j].id != answers[k].id
    {
      LookupFinds(AllAnswers(h), answers[k].id);
    }
  }
}
