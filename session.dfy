/**
 * The session that `_makeRepl` (index.js:73-181) sets up for one socket:
 * the banner, the `live` flag, the REPL instances and their respawning,
 * the command dispatch of `'message'` events, the close handler, the
 * output adapter and `setEval`.
 *
 * A REPL instance (`repl.start`, a foreign library) is an opaque number:
 * instance 0 is the one created at index.js:133, instance k the k-th
 * respawn. When an instance exits is up to that library, so an exit is an
 * event from outside. Two references to instances are kept apart, as the
 * source keeps them: the outer `let r` (index.js:133), which never changes
 * and is what the close handler closes, and the `r` local to the newest
 * exit handler (index.js:125-131), which each respawn reassigns.
 */
module Session {
  import opened Wrappers
  import opened FrameCodec
  import opened Evaluation
  import opened Transport

  /** The parsed `{method, args}` of one inbound message (index.js:137-138); `command` is `method`. */
  datatype Envelope = Envelope(command: string, args: string)

  /** The instance the outer `let r` holds: the first one (index.js:133). */
  const FirstInstance: nat := 0

  /**
   * The session's state: `live`; how many instances have been started; the
   * instance the newest exit handler's `r` holds; the instances `close()`
   * was called on, in order; the chunks pushed onto the REPL's input.
   */
  datatype SessionState = SessionState(
    live: bool,
    instances: nat,
    current: nat,
    closeCalls: seq<nat>,
    input: seq<string>)

  /** Right after `_makeRepl`: live, one instance, nothing closed or typed. */
  const Initial: SessionState := SessionState(true, 1, FirstInstance, [], [])

  /** What can happen to a session: an instance exits, the socket closes, a message arrives. */
  datatype Event = InstanceExit | ChannelClose | Message(envelope: Envelope)

  /** The newest instance is the one the exit handler holds; only the first is ever closed. */
  ghost predicate WellFormed(s: SessionState)
  {
    1 <= s.instances && s.current == s.instances - 1 &&
    forall i :: 0 <= i < |s.closeCalls| ==> s.closeCalls[i] == FirstInstance
  }

  /** The exit handler (index.js:126-131): a new instance, bound in turn, only while live. */
  function OnExit(s: SessionState): (r: SessionState)
    ensures r.live == s.live && r.closeCalls == s.closeCalls && r.input == s.input
    ensures s.live ==> r.instances == s.instances + 1 && r.current == s.instances
    ensures !s.live ==> r == s
  {
    if s.live then s.(instances := s.instances + 1, current := s.instances) else s
  }

  /** The close handler (index.js:153-156): `live = false`, then close the outer `r`. */
  function OnClose(s: SessionState): (r: SessionState)
    ensures !r.live
    ensures r.closeCalls == s.closeCalls + [FirstInstance]
    ensures r.instances == s.instances && r.current == s.current && r.input == s.input
  {
    s.(live := false, closeCalls := s.closeCalls + [FirstInstance])
  }

  /**
   * The message handler (index.js:136-152): `'c'` pushes `args` onto the
   * input; `'resize'` and any other method change nothing.
   */
  function Dispatch(s: SessionState, e: Envelope): (r: SessionState)
    ensures e.command == "c" ==> r.input == s.input + [e.args]
    ensures e.command != "c" ==> r.input == s.input
    ensures r.live == s.live && r.instances == s.instances && r.current == s.current
    ensures r.closeCalls == s.closeCalls
  {
    if e.command == "c" then s.(input := s.input + [e.args]) else s
  }

  /**
   * One handler call for the event `e`: only a close clears `live` and adds
   * a `close()` call, only an exit while live starts an instance, and every
   * event keeps the state well formed.
   */
  function Step(s: SessionState, e: Event): (r: SessionState)
    ensures r.live == (s.live && !e.ChannelClose?)
    ensures r.instances == s.instances + (if s.live && e.InstanceExit? then 1 else 0)
    ensures |r.closeCalls| == |s.closeCalls| + (if e.ChannelClose? then 1 else 0)
    ensures WellFormed(s) ==> WellFormed(r)
  {
    match e
    case InstanceExit => OnExit(s)
    case ChannelClose => OnClose(s)
    case Message(env) => Dispatch(s, env)
  }

  /** The state after the events `es`, in order, starting from `s`. */
  function Replay(s: SessionState, es: seq<Event>): (r: SessionState)
    ensures r.live ==> s.live
    ensures r.instances >= s.instances
    ensures |r.closeCalls| == |s.closeCalls| + Closes(es)
    decreases |es|
  {
    if es == [] then s else Replay(Step(s, es[0]), es[1..])
  }

  /** The number of exits among `es`. */
  function Exits(es: seq<Event>): nat
  {
    if es == [] then 0 else (if es[0].InstanceExit? then 1 else 0) + Exits(es[1..])
  }

  /** The number of socket closes among `es`. */
  function Closes(es: seq<Event>): nat
  {
    if es == [] then 0 else (if es[0].ChannelClose? then 1 else 0) + Closes(es[1..])
  }

  /** The events before the first close. */
  function BeforeClose(es: seq<Event>): (r: seq<Event>)
    ensures |r| <= |es| && r == es[..|r|]
    ensures forall i :: 0 <= i < |r| ==> !r[i].ChannelClose?
    ensures |r| < |es| ==> es[|r|].ChannelClose?
  {
    if es == [] || es[0].ChannelClose? then [] else [es[0]] + BeforeClose(es[1..])
  }

  /** The `args` of the `'c'` messages among `es`, in order. */
  function Typed(es: seq<Event>): seq<string>
  {
    if es == [] then []
    else if es[0].Message? && es[0].envelope.command == "c" then [es[0].envelope.args] + Typed(es[1..])
    else Typed(es[1..])
  }

  /** One more event at the end of a run is one more step. */
  lemma {:induction false} ReplaySnoc(s: SessionState, es: seq<Event>, e: Event)
    ensures Replay(s, es + [e]) == Step(Replay(s, es), e)
    decreases |es|
  {
    if es == [] {
      assert [] + [e] == [e];
    } else {
      assert (es + [e])[0] == es[0] && (es + [e])[1..] == es[1..] + [e];
      ReplaySnoc(Step(s, es[0]), es[1..], e);
    }
  }

  /** Every event keeps the state well formed. */
  lemma {:induction false} ReplayWellFormed(s: SessionState, es: seq<Event>)
    requires WellFormed(s)
    ensures WellFormed(Replay(s, es))
    decreases |es|
  {
    if es != [] {
      var t := Step(s, es[0]);
      assert t.closeCalls == s.closeCalls || t.closeCalls == s.closeCalls + [FirstInstance];
      assert WellFormed(t);
      ReplayWellFormed(t, es[1..]);
    }
  }

  /** `live` is true exactly until the first close, and never becomes true again. */
  lemma {:induction false} LiveUntilClose(s: SessionState, es: seq<Event>)
    ensures Replay(s, es).live <==> s.live && Closes(es) == 0
    decreases |es|
  {
    if es != [] {
      LiveUntilClose(Step(s, es[0]), es[1..]);
    }
  }

  /**
   * Each exit while live starts exactly one instance and an exit after the
   * first close starts none: the count of instances grows by the exits
   * before the first close.
   */
  lemma {:induction false} RespawnsBeforeClose(s: SessionState, es: seq<Event>)
    ensures Replay(s, es).instances == s.instances + (if s.live then Exits(BeforeClose(es)) else 0)
    decreases |es|
  {
    if es != [] {
      var t := Step(s, es[0]);
      RespawnsBeforeClose(t, es[1..]);
      if !es[0].ChannelClose? {
        assert BeforeClose(es) == [es[0]] + BeforeClose(es[1..]);
        assert ([es[0]] + BeforeClose(es[1..]))[1..] == BeforeClose(es[1..]);
      }
    }
  }

  /** Once the session is no longer live it stays so, and exits start no instance. */
  lemma {:induction false} NoRespawnAfterClose(s: SessionState, es: seq<Event>)
    requires !s.live
    ensures !Replay(s, es).live
    ensures Replay(s, es).instances == s.instances && Replay(s, es).current == s.current
    decreases |es|
  {
    if es != [] {
      NoRespawnAfterClose(Step(s, es[0]), es[1..]);
    }
  }

  /** Every close calls `close()` once, and always on the first instance. */
  lemma {:induction false} CloseTargetsFirstInstance(s: SessionState, es: seq<Event>)
    ensures |Replay(s, es).closeCalls| == |s.closeCalls| + Closes(es)
    ensures Replay(s, es).closeCalls[..|s.closeCalls|] == s.closeCalls
    ensures forall i :: |s.closeCalls| <= i < |Replay(s, es).closeCalls| ==>
              Replay(s, es).closeCalls[i] == FirstInstance
    decreases |es|
  {
    if es != [] {
      var t := Step(s, es[0]);
      CloseTargetsFirstInstance(t, es[1..]);
      assert t.closeCalls[..|s.closeCalls|] == s.closeCalls;
    }
  }

  /** The REPL's input is what the `'c'` messages carried, in arrival order. */
  lemma {:induction false} InputIsTyped(s: SessionState, es: seq<Event>)
    ensures Replay(s, es).input == s.input + Typed(es)
    decreases |es|
  {
    if es != [] {
      var t := Step(s, es[0]);
      InputIsTyped(t, es[1..]);
      if es[0].Message? && es[0].envelope.command == "c" {
        assert t.input + Typed(es[1..]) == s.input + ([es[0].envelope.args] + Typed(es[1..]));
      }
    }
  }

  /**
   * After one respawn, closing the socket closes the first instance, which
   * has already exited, and not the instance that is running.
   */
  lemma CloseAfterRespawnMissesCurrent()
    ensures Replay(Initial, [InstanceExit, ChannelClose]).current == 1
    ensures Replay(Initial, [InstanceExit, ChannelClose]).closeCalls == [FirstInstance]
    ensures !Replay(Initial, [InstanceExit, ChannelClose]).live
  {
    var es: seq<Event> := [InstanceExit, ChannelClose];
    assert es[1..] == [ChannelClose] && es[1..][1..] == [];
  }

  /**
   * The banner (index.js:74-75): `bannerText` is the computed banner, as a
   * string, or `None` for a falsy non-string; `encode` is `Buffer.from`'s
   * UTF-8 encoding. One chunk, `bannerText + "\n"`, iff the text is truthy.
   */
  function BannerChunks(bannerText: Option<string>, encode: string -> seq<byte>): (r: seq<seq<byte>>)
    ensures |r| <= 1
    ensures |r| == 1 <==> bannerText.Some? && bannerText.value != ""
    ensures |r| == 1 ==> r[0] == encode(bannerText.value + "\n")
  {
    if bannerText.Some? && bannerText.value != "" then [encode(bannerText.value + "\n")] else []
  }

  /** What `_makeRepl` returns, with the closure state it keeps. */
  class ReplSession {
    const id: string
    const socket: Socket
    var live: bool
    var instances: nat
    var current: nat
    var closeCalls: seq<nat>
    var input: seq<string>
    /** The reassignable `localEval` (index.js:158). */
    var localEval: Evaluator

    /** The session's state as a value. */
    function State(): SessionState
      reads this
    {
      SessionState(live, instances, current, closeCalls, input)
    }

    /**
     * `_makeRepl(socket, id)`: sends the banner once, if it is truthy, then
     * starts instance 0 with the default evaluator around `evalFn`.
     */
    constructor (socket: Socket, id: string, bannerText: Option<string>,
                 encode: string -> seq<byte>, evalFn: string -> EvalFnResult)
      modifies socket
      ensures this.socket == socket && this.id == id
      ensures socket.pushed == old(socket.pushed) + BannerChunks(bannerText, encode)
      ensures State() == Initial && localEval == Default(evalFn)
    {
      this.id := id;
      this.socket := socket;
      live := true;
      instances := 1;
      current := FirstInstance;
      closeCalls := [];
      input := [];
      localEval := Default(evalFn);
      new;
      if bannerText.Some? && bannerText.value != "" {
        socket.Send(encode(bannerText.value + "\n"));
      }
    }

    /** The `'exit'` handler of the newest instance. */
    method Exit()
      modifies this
      ensures State() == Step(old(State()), InstanceExit)
      ensures localEval == old(localEval)
    {
      if live {
        current := instances;
        instances := instances + 1;
      }
    }

    /** The socket's `'close'` handler. */
    method Close()
      modifies this
      ensures State() == Step(old(State()), ChannelClose)
      ensures localEval == old(localEval)
    {
      live := false;
      closeCalls := closeCalls + [FirstInstance];
    }

    /** The socket's `'message'` handler, given the parsed envelope. */
    method OnMessage(e: Envelope)
      modifies this
      ensures State() == Step(old(State()), Message(e))
      ensures localEval == old(localEval)
    {
      match e.command
      case "c" =>
        input := input + [e.args];
      case "resize" =>
      case _ =>
    }

    /** `setEval(newEval)` (index.js:175-177): later lines go to `newEval`. */
    method SetEval(newEval: string -> Completion)
      modifies this
      ensures localEval == Custom(newEval)
      ensures State() == old(State())
    {
      localEval := Custom(newEval);
    }

    /** `output._write(chunk)` (index.js:82-89): the REPL's output goes to the socket. */
    method Write(chunk: seq<byte>)
      modifies socket
      ensures socket.pushed == old(socket.pushed) + [chunk]
    {
      socket.Send(chunk);
    }
  }

  /** The three handlers of a session run one after another follow `Replay`. */
  method RunEvents(session: ReplSession, es: seq<Event>)
    modifies session
    ensures session.State() == Replay(old(session.State()), es)
    ensures session.localEval == old(session.localEval)
  {
    ghost var start := session.State();
    var i := 0;
    while i < |es|
      invariant 0 <= i <= |es|
      invariant session.State() == Replay(start, es[..i])
      invariant session.localEval == old(session.localEval)
      decreases |es| - i
    {
      ReplaySnoc(start, es[..i], es[i]);
      assert es[..i + 1] == es[..i] + [es[i]];
      match es[i] {
        case InstanceExit => session.Exit();
        case ChannelClose => session.Close();
        case Message(e) => session.OnMessage(e);
      }
      i := i + 1;
    }
    assert es[..i] == es;
  }

  /**
   * `setEval(f)` followed by any handler calls: the hook (index.js:105)
   * reads the reassigned `localEval` (index.js:158, 175-177), so the next
   * line is evaluated by `f`, whatever exits, closes and messages came in
   * between.
   */
  method EvalAfterSetEval(session: ReplSession, f: string -> Completion, es: seq<Event>,
                          s: string, rewritten: Option<string>) returns (o: Outcome)
    modifies session
    ensures session.localEval == Custom(f)
    ensures session.State() == Replay(old(session.State()), es)
    ensures o == Hook(s, rewritten, Custom(f))
  {
    session.SetEval(f);
    RunEvents(session, es);
    o := Hook(s, rewritten, session.localEval);
  }
}
