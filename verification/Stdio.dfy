// The stdio transport of a plugin on wasip1 (plugins/stdio.go): the main loop and the calls that
// its handlers make to other plugins read the same input, so a call puts back, in order,
// whatever it reads that is not its own result.
module Stdio {
  import opened Wrappers
  import opened Strings

  datatype Message =
    | Request(id: string, hook: string, payload: string)
    | InvokeResult(id: string, error: Option<string>, result: Option<string>) // result: None if it is no object
    | Other(id: string)

  datatype Line = Malformed | WellFormed(message: Message)

  datatype Call = Call(hook: string, payload: string, parallel: bool)

  /** What StdioInvoke returns. */
  datatype Outcome = Answer(object: string) | Failed(error: string) | InputClosed

  /** A response message: a handler's error or panic is one too. */
  datatype Response = Result(value: string) | Failure(error: string) | NoHandler(hook: string)

  /** What a handler does for a payload. Knowing what its calls so far returned it makes another
      call or answers; it makes at most limit calls. */
  datatype Program = Program(limit: nat, call: seq<Outcome> -> Option<Call>, answer: seq<Outcome> -> Response)
  {
    predicate Calls(heard: seq<Outcome>) { |heard| < limit && call(heard).Some? }
  }

  datatype Output = InvokeOut(id: string, call: Call) | ResponseOut(id: string, response: Response)

  /** The registered handlers and how StdioInvoke names its calls. */
  datatype Host = Host(handlers: map<string, string -> Program>, id: nat -> string)

  // ---------------------------------------------------------------------------
  // What the messages still to be handled become
  // ---------------------------------------------------------------------------

  function Parsed(lines: seq<Line>): seq<Message>
  {
    if lines == [] then []
    else (if lines[0].Malformed? then [] else [lines[0].message]) + Parsed(lines[1..])
  }

  function InvokeId(n: nat): string { "go-invoke-" + Digits(n) }

  predicate Answers(m: Message, id: string) { m.InvokeResult? && m.id == id }

  /** The position of the first result with this id. */
  function Find(pending: seq<Message>, id: string): (k: nat)
    ensures k <= |pending|
    ensures k < |pending| ==> Answers(pending[k], id)
    ensures forall i :: 0 <= i < k ==> !Answers(pending[i], id)
  {
    if pending == [] || Answers(pending[0], id) then 0 else 1 + Find(pending[1..], id)
  }

  function Remove(pending: seq<Message>, k: nat): (rest: seq<Message>)
  {
    if k < |pending| then pending[..k] + pending[k + 1..] else pending
  }

  function Reading(m: Message): Outcome
  {
    if !m.InvokeResult? then InputClosed
    else if m.error.Some? then Failed(m.error.value)
    else Answer(if m.result.Some? then m.result.value else "{}")
  }

  /** What a call returns. */
  function Returned(pending: seq<Message>, id: string): Outcome
  {
    var k := Find(pending, id);
    if k < |pending| then Reading(pending[k]) else InputClosed
  }

  /** A handler's whole run: its answer, the messages it leaves, the last invoke number, and
      what it wrote. */
  datatype Ran = Ran(response: Response, pending: seq<Message>, counter: nat, written: seq<Output>)

  function RunProgram(host: Host, p: Program, heard: seq<Outcome>, pending: seq<Message>, n: nat): (r: Ran)
    ensures |r.pending| <= |pending|
    decreases p.limit - |heard|
  {
    if !p.Calls(heard) then Ran(p.answer(heard), pending, n, [])
    else
      var id := host.id(n + 1);
      var r := RunProgram(host, p, heard + [Returned(pending, id)], Remove(pending, Find(pending, id)), n + 1);
      r.(written := [InvokeOut(id, p.call(heard).value)] + r.written)
  }

  function ProgramOf(host: Host, m: Message): Program
    requires m.Request?
  {
    if m.hook in host.handlers then host.handlers[m.hook](m.payload)
    else Program(0, _ => None, _ => NoHandler(m.hook))
  }

  /** Everything the plugin writes while it works off the pending messages, and the last number. */
  datatype Served = Served(written: seq<Output>, counter: nat)

  function Serve(host: Host, pending: seq<Message>, n: nat): Served
    decreases |pending|
  {
    if pending == [] then Served([], n)
    else if !pending[0].Request? then Serve(host, pending[1..], n)
    else
      var r := RunProgram(host, ProgramOf(host, pending[0]), [], pending[1..], n);
      var rest := Serve(host, r.pending, r.counter);
      Served(r.written + [ResponseOut(pending[0].id, r.response)] + rest.written, rest.counter)
  }

  /** The first result for a call. */
  predicate FirstFor(pending: seq<Message>, k: int, id: string)
  {
    && 0 <= k < |pending| && pending[k].InvokeResult? && pending[k].id == id
    && forall i :: 0 <= i < k && pending[i].InvokeResult? ==> pending[i].id != id
  }

  /** What a call returns, by the first result with its id: its error if there is one, else its object,
      an empty one if there is none; without such a result the input has been read to its end. */
  lemma MeansOf(pending: seq<Message>, id: string)
    ensures forall k :: 0 <= k < |pending| && FirstFor(pending, k, id) ==>
              var m := pending[k];
              && (m.error.Some? ==> Returned(pending, id) == Failed(m.error.value))
              && (m.error.None? && m.result.Some? ==> Returned(pending, id) == Answer(m.result.value))
              && (m.error.None? && m.result.None? ==> Returned(pending, id) == Answer("{}"))
              && Remove(pending, Find(pending, id)) == pending[..k] + pending[k + 1..]
    ensures (forall m :: m in pending && m.InvokeResult? ==> m.id != id) ==>
              Returned(pending, id) == InputClosed && Remove(pending, Find(pending, id)) == pending
  {
    var f := Find(pending, id);
    forall k | 0 <= k < |pending| && FirstFor(pending, k, id) ensures f == k {
      assert f <= k;
      assert f < |pending| ==> Answers(pending[f], id);
    }
    assert f < |pending| ==> pending[f] in pending && pending[f].InvokeResult? && pending[f].id == id;
  }

  /** A handler's run as it can be observed: it was told heard, in this order, each answer taken from
      the messages the one before left. */
  ghost predicate Transcript(host: Host, p: Program, told: seq<Outcome>, heard: seq<Outcome>, left: seq<seq<Message>>,
                             n: nat, r: Ran)
  {
    && |left| == |heard| + 1 && |r.written| == |heard| && r.pending == left[|heard|] && r.counter == n + |heard|
    && (|told + heard| < p.limit ==> p.call(told + heard).None?) && r.response == p.answer(told + heard)
    && forall k: int :: 0 <= k < |heard| ==> TranscriptStep(host, p, told + heard[..k], left[k], left[k + 1], n + k + 1, heard[k], r.written[k])
  }

  /** One call: it is the one the handler makes knowing what it has heard, under the next number, and
      takes its answer out of the pending messages. */
  predicate TranscriptStep(host: Host, p: Program, heard: seq<Outcome>, before: seq<Message>, after: seq<Message>, n: nat,
                           outcome: Outcome, output: Output)
  {
    && |heard| < p.limit && p.call(heard).Some? && output == InvokeOut(host.id(n), p.call(heard).value)
    && outcome == Returned(before, host.id(n)) && after == Remove(before, Find(before, host.id(n)))
  }

  lemma TranscriptCons(host: Host, p: Program, told: seq<Outcome>, first: Outcome, output: Output, pending: seq<Message>,
                       later: seq<Outcome>, left: seq<seq<Message>>, n: nat, s: Ran)
    requires Transcript(host, p, told + [first], later, left, n + 1, s)
    requires TranscriptStep(host, p, told, pending, left[0], n + 1, first, output)
    ensures Transcript(host, p, told, [first] + later, [pending] + left, n, s.(written := [output] + s.written))
  {
    hide TranscriptStep;
    var heard, all, written := [first] + later, [pending] + left, [output] + s.written;
    assert told + heard == told + [first] + later;
    forall k: int | 0 <= k < |heard|
      ensures TranscriptStep(host, p, told + heard[..k], all[k], all[k + 1], n + k + 1, heard[k], written[k])
    {
      if k == 0 {
        assert told + heard[..0] == told && all[1] == left[0];
      } else {
        TranscriptLater(host, p, told, first, later, left, n, s, k - 1);
        assert all[k + 1] == left[k];
      }
    }
  }

  lemma TranscriptLater(host: Host, p: Program, told: seq<Outcome>, first: Outcome, later: seq<Outcome>,
                        left: seq<seq<Message>>, n: nat, s: Ran, j: nat)
    requires Transcript(host, p, told + [first], later, left, n + 1, s) && j < |later|
    ensures TranscriptStep(host, p, told + ([first] + later)[..j + 1], left[j], left[j + 1], n + j + 2, later[j], s.written[j])
  {
    hide TranscriptStep;
    assert told + ([first] + later)[..j + 1] == told + [first] + later[..j];
    assert TranscriptStep(host, p, told + [first] + later[..j], left[j], left[j + 1], n + 1 + j + 1, later[j], s.written[j]);
  }

  /** Every handler's run has a transcript. */
  lemma {:induction false} HandlerTranscript(host: Host, p: Program, told: seq<Outcome>, pending: seq<Message>, n: nat)
    returns (heard: seq<Outcome>, left: seq<seq<Message>>)
    ensures left != [] && left[0] == pending && Transcript(host, p, told, heard, left, n, RunProgram(host, p, told, pending, n))
    decreases p.limit - |told|
  {
    if !p.Calls(told) {
      heard, left := [], [pending];
      assert told + [] == told;
    } else {
      var id := host.id(n + 1);
      var first, rest := Returned(pending, id), Remove(pending, Find(pending, id));
      heard, left := HandlerTranscript(host, p, told + [first], rest, n + 1);
      TranscriptCons(host, p, told, first, InvokeOut(id, p.call(told).value), pending, heard, left, n,
        RunProgram(host, p, told + [first], rest, n + 1));
      heard, left := [first] + heard, [pending] + left;
    }
  }

  /** A handler's run from the start has a transcript. */
  ghost predicate Observed(host: Host, p: Program, pending: seq<Message>, n: nat, r: Ran)
  {
    exists heard, left :: left != [] && left[0] == pending && Transcript(host, p, [], heard, left, n, r)
  }

  // ---------------------------------------------------------------------------
  // Requests are served in order, once each
  // ---------------------------------------------------------------------------

  /** The ids of the requests among the messages, in order. */
  function RequestIds(pending: seq<Message>): seq<string>
  {
    if pending == [] then []
    else if pending[0].Request? then [pending[0].id] + RequestIds(pending[1..])
    else RequestIds(pending[1..])
  }

  /** The ids of the responses, in the order they were written. */
  function Answered(outputs: seq<Output>): seq<string>
  {
    if outputs == [] then []
    else if outputs[0].ResponseOut? then [outputs[0].id] + Answered(outputs[1..])
    else Answered(outputs[1..])
  }

  /** The ids of the calls, in the order they were written. */
  function Invoked(outputs: seq<Output>): seq<string>
  {
    if outputs == [] then []
    else if outputs[0].InvokeOut? then [outputs[0].id] + Invoked(outputs[1..])
    else Invoked(outputs[1..])
  }

  lemma {:induction false} AnsweredConcat(a: seq<Output>, b: seq<Output>)
    ensures Answered(a + b) == Answered(a) + Answered(b)
  {
    if a == [] {
      assert a + b == b;
    } else {
      assert (a + b)[1..] == a[1..] + b;
      AnsweredConcat(a[1..], b);
    }
  }

  lemma {:induction false} InvokedConcat(a: seq<Output>, b: seq<Output>)
    ensures Invoked(a + b) == Invoked(a) + Invoked(b)
  {
    if a == [] {
      assert a + b == b;
    } else {
      assert (a + b)[1..] == a[1..] + b;
      InvokedConcat(a[1..], b);
    }
  }

  lemma {:induction false} RemovalKeepsRequests(pending: seq<Message>, k: nat)
    requires k < |pending| && !pending[k].Request?
    ensures RequestIds(pending[..k] + pending[k + 1..]) == RequestIds(pending)
  {
    var rest := pending[..k] + pending[k + 1..];
    if k == 0 {
      assert rest == pending[1..];
    } else {
      assert rest[0] == pending[0] && rest[1..] == pending[1..][..k - 1] + pending[1..][k..];
      RemovalKeepsRequests(pending[1..], k - 1);
    }
  }

  /** A call takes a result, never a request. */
  lemma RemoveKeepsRequests(pending: seq<Message>, id: string)
    ensures RequestIds(Remove(pending, Find(pending, id))) == RequestIds(pending)
  {
    if Find(pending, id) < |pending| {
      RemovalKeepsRequests(pending, Find(pending, id));
    }
  }

  /** A handler answers nothing itself and leaves all requests. */
  lemma {:induction false} ProgramKeepsRequests(host: Host, p: Program, heard: seq<Outcome>, pending: seq<Message>, n: nat)
    ensures var r := RunProgram(host, p, heard, pending, n);
            RequestIds(r.pending) == RequestIds(pending) && Answered(r.written) == []
    decreases p.limit - |heard|
  {
    if p.Calls(heard) {
      var id := host.id(n + 1);
      var rest := Remove(pending, Find(pending, id));
      RemoveKeepsRequests(pending, id);
      ProgramKeepsRequests(host, p, heard + [Returned(pending, id)], rest, n + 1);
      FirstCall(id, p.call(heard).value, RunProgram(host, p, heard + [Returned(pending, id)], rest, n + 1).written);
    }
  }

  lemma FirstCall(id: string, call: Call, rest: seq<Output>)
    ensures Answered([InvokeOut(id, call)] + rest) == Answered(rest)
    ensures Invoked([InvokeOut(id, call)] + rest) == [id] + Invoked(rest)
  {
    assert ([InvokeOut(id, call)] + rest)[1..] == rest;
  }

  lemma FirstResponse(id: string, response: Response, rest: seq<Output>)
    ensures Answered([ResponseOut(id, response)] + rest) == [id] + Answered(rest)
    ensures Invoked([ResponseOut(id, response)] + rest) == Invoked(rest)
  {
    assert ([ResponseOut(id, response)] + rest)[1..] == rest;
  }

  /** Over the whole run exactly the pending requests are answered, in their order, once each. */
  lemma {:induction false} ServesInOrder(host: Host, pending: seq<Message>, n: nat)
    ensures Answered(Serve(host, pending, n).written) == RequestIds(pending)
    decreases |pending|
  {
    if pending != [] {
      if pending[0].Request? {
        var p := ProgramOf(host, pending[0]);
        var r := RunProgram(host, p, [], pending[1..], n);
        ProgramKeepsRequests(host, p, [], pending[1..], n);
        ServesInOrder(host, r.pending, r.counter);
        AnswerAfter(r.written, pending[0].id, r.response, Serve(host, r.pending, r.counter).written);
      } else {
        ServesInOrder(host, pending[1..], n);
      }
    }
  }

  lemma AnswerAfter(written: seq<Output>, id: string, response: Response, rest: seq<Output>)
    requires Answered(written) == []
    ensures Answered(written + [ResponseOut(id, response)] + rest) == [id] + Answered(rest)
  {
    AnsweredConcat(written, [ResponseOut(id, response)] + rest);
    FirstResponse(id, response, rest);
    assert written + [ResponseOut(id, response)] + rest == written + ([ResponseOut(id, response)] + rest);
  }

  /** The ids of the calls after the n-th up to the last. */
  function Numbering(host: Host, n: nat, last: nat): seq<string>
    decreases last - n
  {
    if last <= n then [] else [host.id(n + 1)] + Numbering(host, n + 1, last)
  }

  lemma {:induction false} NumberingSplits(host: Host, n: nat, mid: nat, last: nat)
    requires n <= mid <= last
    ensures Numbering(host, n, last) == Numbering(host, n, mid) + Numbering(host, mid, last)
    decreases mid - n
  {
    if n < mid {
      NumberingSplits(host, n + 1, mid, last);
    }
  }

  /** A handler's calls carry consecutive numbers. */
  lemma {:induction false} ProgramNumbers(host: Host, p: Program, heard: seq<Outcome>, pending: seq<Message>, n: nat)
    ensures var r := RunProgram(host, p, heard, pending, n);
            n <= r.counter && Invoked(r.written) == Numbering(host, n, r.counter)
    decreases p.limit - |heard|
  {
    if p.Calls(heard) {
      var id := host.id(n + 1);
      var rest := Remove(pending, Find(pending, id));
      ProgramNumbers(host, p, heard + [Returned(pending, id)], rest, n + 1);
      FirstCall(id, p.call(heard).value, RunProgram(host, p, heard + [Returned(pending, id)], rest, n + 1).written);
    }
  }

  /** Over the whole run the calls carry consecutive numbers. */
  lemma {:induction false} CallsNumbered(host: Host, pending: seq<Message>, n: nat)
    ensures var s := Serve(host, pending, n);
            n <= s.counter && Invoked(s.written) == Numbering(host, n, s.counter)
    decreases |pending|
  {
    if pending != [] {
      if pending[0].Request? {
        var p := ProgramOf(host, pending[0]);
        var r := RunProgram(host, p, [], pending[1..], n);
        ProgramNumbers(host, p, [], pending[1..], n);
        CallsNumbered(host, r.pending, r.counter);
        var rest := Serve(host, r.pending, r.counter);
        CallsAfter(host, r.written, pending[0].id, r.response, rest.written, n, r.counter, rest.counter);
      } else {
        CallsNumbered(host, pending[1..], n);
      }
    }
  }

  lemma CallsAfter(host: Host, written: seq<Output>, id: string, response: Response, rest: seq<Output>,
    n: nat, mid: nat, last: nat)
    requires n <= mid <= last
    requires Invoked(written) == Numbering(host, n, mid) && Invoked(rest) == Numbering(host, mid, last)
    ensures Invoked(written + [ResponseOut(id, response)] + rest) == Numbering(host, n, last)
  {
    InvokedConcat(written, [ResponseOut(id, response)] + rest);
    FirstResponse(id, response, rest);
    assert written + [ResponseOut(id, response)] + rest == written + ([ResponseOut(id, response)] + rest);
    NumberingSplits(host, n, mid, last);
  }

  /** No two calls share an id, so a result can only be taken by the call it answers. */
  lemma InvokeIdsDiffer(m: nat, n: nat)
    requires InvokeId(m) == InvokeId(n)
    ensures m == n
  {
    assert InvokeId(m)[10..] == Digits(m) && InvokeId(n)[10..] == Digits(n);
    DigitsDiffer(m, n);
  }

  // ---------------------------------------------------------------------------
  // The code
  // ---------------------------------------------------------------------------

  lemma {:induction false} ParsedStep(lines: seq<Line>)
    requires lines != []
    ensures lines[0].Malformed? ==> Parsed(lines) == Parsed(lines[1..])
    ensures lines[0].WellFormed? ==> Parsed(lines) == [lines[0].message] + Parsed(lines[1..])
  {}

  /** Looking past messages that are not the answer. */
  lemma {:induction false} FindPast(skipped: seq<Message>, rest: seq<Message>, id: string)
    requires NoAnswer(skipped, id)
    ensures Find(skipped + rest, id) == |skipped| + Find(rest, id)
  {
    if skipped == [] {
      assert skipped + rest == rest;
    } else {
      assert (skipped + rest)[1..] == skipped[1..] + rest;
      FindPast(skipped[1..], rest, id);
    }
  }

  /** No skipped message is the answer. */
  predicate NoAnswer(skipped: seq<Message>, id: string)
  {
    forall i :: 0 <= i < |skipped| ==> !Answers(skipped[i], id)
  }

  /** The first message after the skipped ones is the one taken, if it is the answer. */
  lemma TakenNext(skipped: seq<Message>, rest: seq<Message>, id: string)
    requires rest != [] && NoAnswer(skipped, id) && Answers(rest[0], id)
    ensures Returned(skipped + rest, id) == Reading(rest[0])
    ensures Remove(skipped + rest, Find(skipped + rest, id)) == skipped + rest[1..]
  {
    FindPast(skipped, rest, id);
    var all, k := skipped + rest, |skipped|;
    assert Find(all, id) == k && all[k] == rest[0] && all[..k] == skipped && all[k + 1..] == rest[1..];
  }

  lemma OneMoreSkipped(skipped: seq<Message>, rest: seq<Message>)
    requires rest != []
    ensures skipped + rest == skipped + [rest[0]] + rest[1..]
  {}

  lemma NoneTaken(skipped: seq<Message>, id: string)
    requires NoAnswer(skipped, id)
    ensures Returned(skipped, id) == InputClosed && Remove(skipped, Find(skipped, id)) == skipped
  {
    FindPast(skipped, [], id);
    assert skipped + [] == skipped;
  }

  class Plugin {
    const host: Host
    var queue: seq<Message>   // wasip1Queue
    var unread: seq<Line>     // what the scanner has not read yet
    var counter: nat          // stdioIDCounter
    var written: seq<Output>  // standard output

    /** Every message still to be handled, in arrival order. */
    function Pending(): seq<Message>
      reads this`queue, this`unread
    {
      queue + Parsed(unread)
    }

    constructor (handlers: map<string, string -> Program>, input: seq<Line>)
      ensures host == Host(handlers, InvokeId) && Pending() == Parsed(input) && counter == 0 && written == []
    {
      host := Host(handlers, InvokeId);
      queue, unread, counter, written := [], input, 0, [];
    }

    /** The next message from the queue, else from the input, skipping malformed lines. */
    method NextMsg() returns (m: Option<Message>)
      modifies this`queue, this`unread
      ensures m.None? <==> old(Pending()) == []
      ensures Pending() == if m.Some? then old(Pending())[1..] else []
      ensures m.Some? ==> m.value == old(Pending())[0]
      ensures |queue| + |unread| <= old(|queue| + |unread|) && (m.Some? ==> |Pending()| < old(|Pending()|))
    {
      while true
        invariant Pending() == old(Pending()) && |queue| + |unread| <= old(|queue| + |unread|)
        decreases |unread|
      {
        if queue != [] {
          m := Some(queue[0]);
          queue := queue[1..];
          return;
        }
        if unread == [] {
          return None;
        }
        var line := unread[0];
        ParsedStep(unread);
        unread := unread[1..];
        if line.WellFormed? {
          return Some(line.message);
        }
      }
    }

    /** The deferred messages go back in front. */
    method PutBack(deferred: seq<Message>)
      modifies this`queue
      ensures Pending() == deferred + old(Pending())
    {
      queue := deferred + queue;
    }

    /** Reads on until the result with this id; everything else goes back, in order. */
    method AwaitResult(id: string) returns (r: Outcome)
      modifies this`queue, this`unread
      ensures r == Returned(old(Pending()), id)
      ensures Pending() == Remove(old(Pending()), Find(old(Pending()), id))
    {
      ghost var before := Pending();
      var deferred: seq<Message> := [];
      while true
        invariant before == deferred + Pending()
        invariant NoAnswer(deferred, id)
        decreases |Pending()|
      {
        ghost var rest := Pending();
        var m := NextMsg();
        if m.None? {
          NoneTaken(deferred, id);
          PutBack(deferred);
          return InputClosed;
        }
        if Answers(m.value, id) {
          TakenNext(deferred, rest, id);
          PutBack(deferred);
          return Reading(m.value);
        }
        OneMoreSkipped(deferred, rest);
        deferred := deferred + [m.value];
      }
    }

    /** StdioInvoke. */
    method StdioInvoke(call: Call) returns (r: Outcome)
      modifies this
      ensures counter == old(counter) + 1 && written == old(written) + [InvokeOut(host.id(counter), call)]
      ensures r == Returned(old(Pending()), host.id(counter))
      ensures Pending() == Remove(old(Pending()), Find(old(Pending()), host.id(counter)))
      ensures forall k :: 0 <= k < |old(Pending())| && FirstFor(old(Pending()), k, host.id(counter)) ==>
                var m := old(Pending())[k];
                && (m.error.Some? ==> r == Failed(m.error.value))
                && (m.error.None? && m.result.Some? ==> r == Answer(m.result.value))
                && (m.error.None? && m.result.None? ==> r == Answer("{}"))
                && Pending() == old(Pending())[..k] + old(Pending())[k + 1..]
      ensures (forall m :: m in old(Pending()) && m.InvokeResult? ==> m.id != host.id(counter)) ==>
                r == InputClosed && Pending() == old(Pending())
    {
      MeansOf(Pending(), host.id(counter + 1));
      counter := counter + 1;
      written := written + [InvokeOut(host.id(counter), call)];
      r := AwaitResult(host.id(counter));
    }

    /** A handler, knowing what its calls so far returned. */
    method RunHandler(p: Program, heard: seq<Outcome>) returns (response: Response)
      modifies this
      ensures var r := RunProgram(host, p, heard, old(Pending()), old(counter));
              response == r.response && Pending() == r.pending && counter == r.counter &&
              written == old(written) + r.written
      decreases p.limit - |heard|
    {
      hide Pending, Find, Remove, Returned;
      if p.Calls(heard) {
        ghost var before, call := written, InvokeOut(host.id(counter + 1), p.call(heard).value);
        var outcome := StdioInvoke(p.call(heard).value);
        ghost var rest := RunProgram(host, p, heard + [outcome], Pending(), counter).written;
        response := RunHandler(p, heard + [outcome]);
        Associate(before, [call], rest);
      } else {
        response := p.answer(heard);
      }
    }

    /** One request: the registered handler runs, one call at a time, then its response is written. */
    method HandleRequest(m: Message)
      requires m.Request?
      modifies this
      ensures var r := RunProgram(host, ProgramOf(host, m), [], old(Pending()), old(counter));
              Pending() == r.pending && counter == r.counter &&
              written == old(written) + r.written + [ResponseOut(m.id, r.response)]
      ensures m.hook !in host.handlers ==>
                written == old(written) + [ResponseOut(m.id, NoHandler(m.hook))] && Pending() == old(Pending())
      ensures m.hook in host.handlers && !host.handlers[m.hook](m.payload).Calls([]) ==>
                written == old(written) + [ResponseOut(m.id, host.handlers[m.hook](m.payload).answer([]))]
      ensures m.hook in host.handlers ==>
                exists r: Ran :: Observed(host, host.handlers[m.hook](m.payload), old(Pending()), old(counter), r) &&
                  Pending() == r.pending && counter == r.counter &&
                  written == old(written) + r.written + [ResponseOut(m.id, r.response)]
    {
      ghost var heard, left := HandlerTranscript(host, ProgramOf(host, m), [], Pending(), counter);
      var response := RunHandler(ProgramOf(host, m), []);
      written := written + [ResponseOut(m.id, response)];
    }

    /** The main loop: requests are handled one by one, everything else is dropped. */
    method RunStdio()
      modifies this
      ensures written == old(written) + Serve(host, old(Pending()), old(counter)).written
      ensures counter == Serve(host, old(Pending()), old(counter)).counter && Pending() == []
    {
      ghost var all, before := Serve(host, Pending(), counter), written;
      while true
        invariant Serve(host, Pending(), counter).counter == all.counter
        invariant written + Serve(host, Pending(), counter).written == before + all.written
        decreases |Pending()|
      {
        ghost var pending, was := Pending(), written;
        var m := NextMsg();
        if m.None? {
          return;
        }
        if m.value.Request? {
          ghost var r := RunProgram(host, ProgramOf(host, m.value), [], Pending(), counter);
          HandleRequest(m.value);
          Regroup(was, r.written, [ResponseOut(m.value.id, r.response)], Serve(host, r.pending, r.counter).written);
        }
      }
    }
  }

  lemma Associate<T>(a: seq<T>, b: seq<T>, c: seq<T>)
    ensures a + b + c == a + (b + c)
  {}

  lemma Regroup<T>(a: seq<T>, b: seq<T>, c: seq<T>, d: seq<T>)
    ensures a + b + c + d == a + (b + c + d)
  {}
}
