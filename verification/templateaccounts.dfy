// Accounts of a run by a template: what is written, marked and tested, where in
// the tree of commands, and in which scope; an independent reading of Meaning.
module TemplateAccounts {
  import opened Templates
  import opened TemplateOutput

  // ----- the places of a template

  // A command of a list and a turn of its loop; a place is a way down the tree.
  datatype Step = Step(k: nat, turn: nat)

  type Path = seq<Step>

  predicate Less(a: Step, b: Step) {
    a.k < b.k || (a.k == b.k && a.turn < b.turn)
  }

  // The order of a run through the tree: a place comes before those below it.
  ghost predicate Before(p: Path, q: Path) {
    exists n: nat :: n <= |p| && n < |q| && p[..n] == q[..n] && (n == |p| || Less(p[n], q[n]))
  }

  predicate Known(control: string) {
    control == "sort" || control == "sort.cons" || control == "cons.param" || control == "param.prev"
  }

  // The scope inside the i-th turn of a loop, if there is that turn.
  function Turn<M>(spec: Spec<M>, control: string, e: Scope, i: nat): Option<Scope> {
    if control == "sort" then
      if i < |spec.sorts| then Some(e.(sort := Some(spec.sorts[i]))) else None
    else if control == "sort.cons" then
      if e.sort.Some? && i < |spec.conses(e.sort.value)| then
        Some(e.(cons := Some(spec.conses(e.sort.value)[i])))
      else None
    else if Known(control) && e.cons.Some? then
      var ps := spec.pars(e.cons.value);
      var most := if control == "cons.param" then |ps| else e.paramNo;
      if i < |ps| && i < most then Some(e.(param := Some(ps[i]), paramNo := i, lastParamNo := most - 1)) else None
    else None
  }

  // Something happens at a place: a command in a scope.
  datatype Stop = Stop(cmd: Command, scope: Scope)

  // What happens at the place p below the place at, where the commands cs stand,
  // if held are the places of the conditions that hold, and of the sorts shown.
  function Find<M>(spec: Spec<M>, cs: seq<Command>, e: Scope, at: Path, held: set<Path>, p: Path): Option<Stop>
    decreases |p|
  {
    if p == [] || p[0].k >= |cs| then None
    else
      var c, i, here, more := cs[p[0].k], p[0].turn, at + [p[0]], p[1..];
      match c
      case Cond(_, yes, no) =>
        if i > 0 then None
        else if more == [] then Some(Stop(c, e))
        else if here in held then Find(spec, yes, e, here, held, more)
        else if no.Else? then Find(spec, no.cmds, e, here, held, more)
        else None
      case Loop(control, body) =>
        if !Known(control) then (if i == 0 && more == [] then Some(Stop(c, e)) else None)
        else
          var inside := Turn(spec, control, e, i);
          if inside.None? then None
          else if control != "sort" || (more != [] && here in held) then
            Find(spec, body, inside.value, here, held, more)
          else if more == [] then Some(Stop(c, inside.value))
          else None
      case _ => if i == 0 && more == [] then Some(Stop(c, e)) else None
  }

  // ----- accounts of a run

  // One thing that happened: where, what, in which scope, and whether it held.
  datatype Event = Event(at: Path, stop: Stop, held: bool)

  function Effect<M>(spec: Spec<M>, v: Stop, s: State<M>): State<M> {
    match v.cmd
    case Simple(text) => s.(text := spec.format(text, v.scope, s.text))
    case Cond(_, _, _) => s
    case Loop(control, _) => if Known(control) then s else s.(errors := s.errors + 1)
    case _ => s.(marks := spec.use(s.marks, v.cmd))
  }

  // The state after all of a log.
  function Replay<M>(spec: Spec<M>, log: seq<Event>, s: State<M>): State<M> {
    if log == [] then s else Effect(spec, log[|log| - 1].stop, Replay(spec, log[..|log| - 1], s))
  }

  // A condition's test, or whether a sort is shown, with the marks of that time.
  predicate Holds<M>(spec: Spec<M>, v: Stop, marks: M) {
    match v.cmd
    case Cond(control, _, _) => spec.test(control, v.scope, marks)
    case Loop(control, _) => control == "sort" && v.scope.sort.Some? && spec.shown(marks, v.scope.sort.value)
    case _ => false
  }

  ghost predicate Honest<M>(spec: Spec<M>, log: seq<Event>, s: State<M>) {
    forall j :: 0 <= j < |log| ==> log[j].held == Holds(spec, log[j].stop, Replay(spec, log[..j], s).marks)
  }

  ghost predicate InOrder(log: seq<Event>) {
    forall i, j :: 0 <= i < j < |log| ==> Before(log[i].at, log[j].at)
  }

  function HeldIn(log: seq<Event>): set<Path> {
    set j | 0 <= j < |log| && log[j].held :: log[j].at
  }

  // The log tells what running the commands in the scope e does to the state s:
  // in order, exactly what happens at any place, given what was found to hold.
  ghost predicate Account<M>(spec: Spec<M>, cs: seq<Command>, e: Scope, s: State<M>, log: seq<Event>) {
    && Honest(spec, log, s) && InOrder(log)
    && (forall j :: 0 <= j < |log| ==> Find(spec, cs, e, [], HeldIn(log), log[j].at) == Some(log[j].stop))
    && (forall p :: Find(spec, cs, e, [], HeldIn(log), p).Some? ==> exists j :: 0 <= j < |log| && log[j].at == p)
  }

  // ----- parts of an account

  predicate Within(x: Step, lo: Step, hi: Step) { !Less(x, lo) && Less(x, hi) }

  // All places are below at, by steps from lo on up to hi.
  ghost predicate Below(log: seq<Event>, at: Path, lo: Step, hi: Step) {
    forall j :: 0 <= j < |log| ==>
      |log[j].at| > |at| && log[j].at[..|at|] == at && Within(log[j].at[|at|], lo, hi)
  }

  ghost predicate Agrees(held: set<Path>, log: seq<Event>) {
    forall j :: 0 <= j < |log| ==> (log[j].at in held <==> log[j].held)
  }

  // What is at a place of the log happens there.
  ghost predicate Found<M>(spec: Spec<M>, cs: seq<Command>, e: Scope, at: Path, held: set<Path>, log: seq<Event>) {
    forall j :: 0 <= j < |log| && |log[j].at| > |at| ==>
      Find(spec, cs, e, at, held, log[j].at[|at|..]) == Some(log[j].stop)
  }

  // Whatever happens at a place of these steps is in the log.
  ghost predicate Full<M>(spec: Spec<M>, cs: seq<Command>, e: Scope, at: Path, held: set<Path>, log: seq<Event>,
                          lo: Step, hi: Step)
  {
    forall p :: p != [] && Within(p[0], lo, hi) && Find(spec, cs, e, at, held, p).Some? ==>
      exists j :: 0 <= j < |log| && log[j].at == at + p
  }

  // The log tells of the steps from lo on up to hi, which lead from s to t.
  ghost predicate Tells<M>(spec: Spec<M>, cs: seq<Command>, e: Scope, at: Path, lo: Step, hi: Step,
                           s: State<M>, t: State<M>, log: seq<Event>)
  {
    && Replay(spec, log, s) == t && Honest(spec, log, s) && InOrder(log) && Below(log, at, lo, hi)
    && forall held :: Agrees(held, log) ==>
         Found(spec, cs, e, at, held, log) && Full(spec, cs, e, at, held, log, lo, hi)
  }

  lemma {:induction false} ReplayThen<M>(spec: Spec<M>, a: seq<Event>, b: seq<Event>, s: State<M>)
    ensures Replay(spec, a + b, s) == Replay(spec, b, Replay(spec, a, s))
    decreases |b|
  {
    if b == [] {
      assert a + b == a;
    } else {
      assert (a + b)[..|a + b| - 1] == a + b[..|b| - 1];
      ReplayThen(spec, a, b[..|b| - 1], s);
    }
  }

  lemma HonestThen<M>(spec: Spec<M>, a: seq<Event>, b: seq<Event>, s: State<M>)
    requires Honest(spec, a, s) && Honest(spec, b, Replay(spec, a, s))
    ensures Honest(spec, a + b, s)
  {
    hide Holds, Replay;
    forall j | 0 <= j < |a + b|
      ensures (a + b)[j].held == Holds(spec, (a + b)[j].stop, Replay(spec, (a + b)[..j], s).marks)
    {
      if j < |a| {
        assert (a + b)[..j] == a[..j];
      } else {
        assert (a + b)[..j] == a + b[..j - |a|];
        ReplayThen(spec, a, b[..j - |a|], s);
      }
    }
  }

  // Steps after other steps.
  lemma InOrderThen(a: seq<Event>, b: seq<Event>, at: Path, lo: Step, mid: Step, hi: Step)
    requires InOrder(a) && InOrder(b) && Below(a, at, lo, mid) && Below(b, at, mid, hi)
    requires !Less(mid, lo) && !Less(hi, mid)
    ensures InOrder(a + b) && Below(a + b, at, lo, hi)
  {
    hide Before;
    forall i, j | 0 <= i < |a| && 0 <= j < |b| ensures Before(a[i].at, b[j].at) {
      SplitAt(a[i].at, b[j].at, |at|);
    }
  }

  lemma SplitAt(p: Path, q: Path, n: nat)
    requires n < |p| && n < |q| && p[..n] == q[..n] && Less(p[n], q[n])
    ensures Before(p, q)
  {
  }

  lemma TellsThen<M>(spec: Spec<M>, cs: seq<Command>, e: Scope, at: Path, lo: Step, mid: Step, hi: Step,
                     s: State<M>, t: State<M>, u: State<M>, a: seq<Event>, b: seq<Event>)
    requires Tells(spec, cs, e, at, lo, mid, s, t, a) && Tells(spec, cs, e, at, mid, hi, t, u, b)
    requires !Less(mid, lo) && !Less(hi, mid)
    ensures Tells(spec, cs, e, at, lo, hi, s, u, a + b)
  {
    hide Replay, Honest, InOrder, Find, Found, Full, Agrees;
    ReplayThen(spec, a, b, s);
    HonestThen(spec, a, b, s);
    InOrderThen(a, b, at, lo, mid, hi);
    forall held | Agrees(held, a + b)
      ensures Found(spec, cs, e, at, held, a + b) && Full(spec, cs, e, at, held, a + b, lo, hi)
    {
      AgreesBoth(held, a, b);
      FoundBoth(spec, cs, e, at, held, a, b);
      FullBoth(spec, cs, e, at, held, a, b, lo, mid, hi);
    }
  }

  lemma FoundBoth<M>(spec: Spec<M>, cs: seq<Command>, e: Scope, at: Path, held: set<Path>,
                     a: seq<Event>, b: seq<Event>)
    requires Found(spec, cs, e, at, held, a) && Found(spec, cs, e, at, held, b)
    ensures Found(spec, cs, e, at, held, a + b)
  {
    hide Find;
  }

  lemma FullBoth<M>(spec: Spec<M>, cs: seq<Command>, e: Scope, at: Path, held: set<Path>,
                    a: seq<Event>, b: seq<Event>, lo: Step, mid: Step, hi: Step)
    requires Full(spec, cs, e, at, held, a, lo, mid) && Full(spec, cs, e, at, held, b, mid, hi)
    ensures Full(spec, cs, e, at, held, a + b, lo, hi)
  {
    hide Find;
    forall p | p != [] && Within(p[0], lo, hi) && Find(spec, cs, e, at, held, p).Some?
      ensures exists j :: 0 <= j < |a + b| && (a + b)[j].at == at + p
    {
      if Within(p[0], lo, mid) {
        var j :| 0 <= j < |a| && a[j].at == at + p;
        assert (a + b)[j].at == at + p;
      } else {
        var j :| 0 <= j < |b| && b[j].at == at + p;
        assert (a + b)[|a| + j].at == at + p;
      }
    }
  }

  lemma AgreesFirst(held: set<Path>, first: Event, log: seq<Event>)
    requires Agrees(held, [first] + log)
    ensures (first.at in held <==> first.held) && Agrees(held, log)
  {
    AgreesBoth(held, [first], log);
    assert [first][0] == first;
  }

  lemma AgreesBoth(held: set<Path>, a: seq<Event>, b: seq<Event>)
    requires Agrees(held, a + b)
    ensures Agrees(held, a) && Agrees(held, b)
  {
    forall j | 0 <= j < |a| ensures a[j].at in held <==> a[j].held { assert (a + b)[j] == a[j]; }
    forall j | 0 <= j < |b| ensures b[j].at in held <==> b[j].held { assert (a + b)[|a| + j] == b[j]; }
  }

  // Steps at which nothing happens.
  lemma TellsNothing<M>(spec: Spec<M>, cs: seq<Command>, e: Scope, at: Path, lo: Step, hi: Step, s: State<M>)
    requires forall p: Path, held :: p != [] && Within(p[0], lo, hi) ==> Find(spec, cs, e, at, held, p).None?
    ensures Tells(spec, cs, e, at, lo, hi, s, s, [])
  {
    hide Find;
  }

  function Next(x: Step): Step { Step(x.k, x.turn + 1) }

  // A place where a step ends, and what comes below it: the places of the
  // commands that are entered there.
  lemma TellsOne<M>(spec: Spec<M>, cs: seq<Command>, e: Scope, at: Path, x: Step, v: Stop, ok: bool, s: State<M>,
                    bs: seq<Command>, e': Scope, t: State<M>, log: seq<Event>)
    requires ok == Holds(spec, v, s.marks)
    requires forall held :: Find(spec, cs, e, at, held, [x]) == Some(v)
    requires forall held :: (at + [x] in held <==> ok) ==> Enters(spec, cs, e, at, x, held, bs, e')
    requires Tells(spec, bs, e', at + [x], Step(0, 0), Step(|bs|, 0), Effect(spec, v, s), t, log)
    ensures Tells(spec, cs, e, at, x, Next(x), s, t, [Event(at + [x], v, ok)] + log)
  {
    hide Find, Found, Full, Enters, Agrees, Below, Effect, Holds, Replay, InOrder, Honest;
    var first := Event(at + [x], v, ok);
    OneEvent(spec, first, s);
    ReplayThen(spec, [first], log, s);
    HonestThen(spec, [first], log, s);
    InOrderUnder(first, log, at, x, Step(|bs|, 0));
    forall held | Agrees(held, [first] + log)
      ensures Found(spec, cs, e, at, held, [first] + log) && Full(spec, cs, e, at, held, [first] + log, x, Next(x))
    {
      AgreesFirst(held, first, log);
      FoundUnder(spec, cs, e, at, x, held, bs, e', log);
      FoundFirst(spec, cs, e, at, x, held, first);
      FoundBoth(spec, cs, e, at, held, [first], log);
      FullUnder(spec, cs, e, at, x, held, bs, e', [first], log);
    }
  }

  lemma FoundFirst<M>(spec: Spec<M>, cs: seq<Command>, e: Scope, at: Path, x: Step, held: set<Path>, first: Event)
    requires first.at == at + [x] && Find(spec, cs, e, at, held, [x]) == Some(first.stop)
    ensures Found(spec, cs, e, at, held, [first])
  {
    assert first.at[|at|..] == [x];
  }

  // Below the step x the commands bs are entered in the scope e'.
  ghost predicate Enters<M>(spec: Spec<M>, cs: seq<Command>, e: Scope, at: Path, x: Step, held: set<Path>,
                            bs: seq<Command>, e': Scope)
  {
    forall p :: p != [] ==> Find(spec, cs, e, at, held, [x] + p) == Find(spec, bs, e', at + [x], held, p)
  }

  // What is found below a step is what the commands entered there give.
  lemma FoundUnder<M>(spec: Spec<M>, cs: seq<Command>, e: Scope, at: Path, x: Step, held: set<Path>,
                      bs: seq<Command>, e': Scope, log: seq<Event>)
    requires Enters(spec, cs, e, at, x, held, bs, e') && Below(log, at + [x], Step(0, 0), Step(|bs|, 0))
    requires Found(spec, bs, e', at + [x], held, log)
    ensures Found(spec, cs, e, at, held, log)
  {
    hide Find;
    forall j | 0 <= j < |log| ensures Find(spec, cs, e, at, held, log[j].at[|at|..]) == Some(log[j].stop) {
      Deeper(log[j].at, at, x);
    }
  }

  // Nothing else is, if what is found at the step itself comes first.
  lemma FullUnder<M>(spec: Spec<M>, cs: seq<Command>, e: Scope, at: Path, x: Step, held: set<Path>,
                     bs: seq<Command>, e': Scope, first: seq<Event>, log: seq<Event>)
    requires Enters(spec, cs, e, at, x, held, bs, e')
    requires Full(spec, bs, e', at + [x], held, log, Step(0, 0), Step(|bs|, 0))
    requires Find(spec, cs, e, at, held, [x]).Some? ==> first != [] && first[0].at == at + [x]
    ensures Full(spec, cs, e, at, held, first + log, x, Next(x))
  {
    hide Find, Enters;
    var all := first + log;
    forall p | p != [] && Within(p[0], x, Next(x)) && Find(spec, cs, e, at, held, p).Some?
      ensures exists j :: 0 <= j < |all| && all[j].at == at + p
    {
      assert p[0] == x;
      FullAt(spec, cs, e, at, x, held, bs, e', first, log, p);
    }
  }

  lemma FullAt<M>(spec: Spec<M>, cs: seq<Command>, e: Scope, at: Path, x: Step, held: set<Path>,
                  bs: seq<Command>, e': Scope, first: seq<Event>, log: seq<Event>, p: Path)
    requires Enters(spec, cs, e, at, x, held, bs, e')
    requires Full(spec, bs, e', at + [x], held, log, Step(0, 0), Step(|bs|, 0))
    requires p != [] && p[0] == x && Find(spec, cs, e, at, held, p).Some?
    requires p == [x] ==> first != [] && first[0].at == at + [x]
    ensures exists j :: 0 <= j < |first + log| && (first + log)[j].at == at + p
  {
    hide Find;
    var more := p[1..];
    assert p == [x] + more;
    if more == [] {
      assert p == [x] && (first + log)[0].at == at + p;
    } else {
      assert at + p == at + [x] + more;
      BelowAny(more[0], spec, bs, e', at + [x], held, more);
      var j :| 0 <= j < |log| && log[j].at == at + [x] + more;
      assert (first + log)[|first| + j].at == at + p;
    }
  }

  // The same where nothing happens before the commands are entered.
  lemma TellsInside<M>(spec: Spec<M>, cs: seq<Command>, e: Scope, at: Path, x: Step, s: State<M>,
                       bs: seq<Command>, e': Scope, t: State<M>, log: seq<Event>)
    requires forall held :: Enters(spec, cs, e, at, x, held, bs, e') && Find(spec, cs, e, at, held, [x]).None?
    requires Tells(spec, bs, e', at + [x], Step(0, 0), Step(|bs|, 0), s, t, log)
    ensures Tells(spec, cs, e, at, x, Next(x), s, t, log)
  {
    hide Find, Found, Full, Enters, Agrees, Replay, InOrder, Honest;
    UnderHere(log, at, x, Step(|bs|, 0));
    forall held | Agrees(held, log)
      ensures Found(spec, cs, e, at, held, log) && Full(spec, cs, e, at, held, log, x, Next(x))
    {
      FoundUnder(spec, cs, e, at, x, held, bs, e', log);
      FullUnder(spec, cs, e, at, x, held, bs, e', [], log);
      assert [] + log == log;
    }
  }

  lemma NotHere<M>(spec: Spec<M>, cs: seq<Command>, e: Scope, at: Path, held: set<Path>)
    ensures Find(spec, cs, e, at, held, []).None?
  {
  }

  // Whatever is found is found by a step of the commands.
  lemma BelowAny<M>(x: Step, spec: Spec<M>, cs: seq<Command>, e: Scope, at: Path, held: set<Path>, p: Path)
    requires p != [] && p[0] == x && Find(spec, cs, e, at, held, p).Some?
    ensures Within(x, Step(0, 0), Step(|cs|, 0))
  {
  }

  lemma Deeper(q: Path, at: Path, x: Step)
    requires |q| > |at| + 1 && q[..|at| + 1] == at + [x]
    ensures q[|at|..] == [x] + q[|at| + 1..] && q[|at|] == x && q[..|at|] == at
  {
    assert q[..|at| + 1][|at|] == q[|at|] && q[..|at| + 1][..|at|] == q[..|at|];
  }

  lemma UnderHere(log: seq<Event>, at: Path, x: Step, hi: Step)
    requires Below(log, at + [x], Step(0, 0), hi)
    ensures Below(log, at, x, Next(x))
  {
    forall j | 0 <= j < |log|
      ensures |log[j].at| > |at| && log[j].at[..|at|] == at && Within(log[j].at[|at|], x, Next(x))
    {
      Deeper(log[j].at, at, x);
    }
  }

  lemma InOrderUnder(v: Event, log: seq<Event>, at: Path, x: Step, hi: Step)
    requires v.at == at + [x] && InOrder(log) && Below(log, at + [x], Step(0, 0), hi)
    ensures InOrder([v] + log) && Below([v] + log, at, x, Next(x))
  {
    hide Before;
    UnderHere(log, at, x, hi);
    forall j | 0 <= j < |log| ensures Before(v.at, log[j].at) {
      Above(v.at, log[j].at);
    }
    assert v.at[..|at|] == at;
  }

  lemma Above(p: Path, q: Path)
    requires |p| < |q| && q[..|p|] == p
    ensures Before(p, q)
  {
    assert p[..|p|] == p;
  }

  lemma OneEvent<M>(spec: Spec<M>, v: Event, s: State<M>)
    requires v.held == Holds(spec, v.stop, s.marks)
    ensures Replay(spec, [v], s) == Effect(spec, v.stop, s) && Honest(spec, [v], s) && InOrder([v])
  {
    assert [v][..0] == [];
  }

  // ----- the accounts of single commands

  // A command that is entered nowhere.
  lemma TellsLeaf<M>(spec: Spec<M>, cs: seq<Command>, k: nat, e: Scope, at: Path, s: State<M>)
    requires k < |cs| && !cs[k].Cond? && (cs[k].Loop? ==> !Known(cs[k].control))
    ensures var v := Stop(cs[k], e);
            Tells(spec, cs, e, at, Step(k, 0), Step(k + 1, 0), s, Effect(spec, v, s),
                  [Event(at + [Step(k, 0)], v, false)])
  {
    hide Tells, Effect;
    var x, v := Step(k, 0), Stop(cs[k], e);
    TellsNothing(spec, [], e, at + [x], Step(0, 0), Step(0, 0), Effect(spec, v, s));
    TellsOne(spec, cs, e, at, x, v, false, s, [], e, Effect(spec, v, s), []);
    TellsNothing(spec, cs, e, at, Next(x), Step(k + 1, 0), Effect(spec, v, s));
    var log := [Event(at + [x], v, false)];
    assert log + [] == log;
    TellsThen(spec, cs, e, at, x, Next(x), Step(k + 1, 0), s, Effect(spec, v, s), Effect(spec, v, s), log, []);
  }

  // The commands of a condition that are run.
  function Branch(c: Command, ok: bool): seq<Command>
    requires c.Cond?
  {
    if ok then c.yes else if c.no.Else? then c.no.cmds else []
  }

  lemma TellsCond<M>(spec: Spec<M>, cs: seq<Command>, k: nat, e: Scope, at: Path, s: State<M>, t: State<M>,
                     log: seq<Event>)
    requires k < |cs| && cs[k].Cond?
    requires var ok := spec.test(cs[k].control, e, s.marks);
             var bs := Branch(cs[k], ok);
             Tells(spec, bs, e, at + [Step(k, 0)], Step(0, 0), Step(|bs|, 0), s, t, log)
    ensures var ok := spec.test(cs[k].control, e, s.marks);
            Tells(spec, cs, e, at, Step(k, 0), Step(k + 1, 0), s, t,
                  [Event(at + [Step(k, 0)], Stop(cs[k], e), ok)] + log)
  {
    hide Tells;
    var x, v, ok := Step(k, 0), Stop(cs[k], e), spec.test(cs[k].control, e, s.marks);
    var bs := Branch(cs[k], ok);
    forall held | at + [x] in held <==> ok ensures Enters(spec, cs, e, at, x, held, bs, e) {
      assert forall p: Path :: ([x] + p)[0] == x && ([x] + p)[1..] == p;
    }
    TellsOne(spec, cs, e, at, x, v, ok, s, bs, e, t, log);
    var all := [Event(at + [x], v, ok)] + log;
    TellsNothing(spec, cs, e, at, Next(x), Step(k + 1, 0), t);
    assert all + [] == all;
    TellsThen(spec, cs, e, at, x, Next(x), Step(k + 1, 0), s, t, t, all, []);
  }

  // One more turn of a loop over the parts of the scope.
  lemma TellsTurn<M>(spec: Spec<M>, cs: seq<Command>, k: nat, i: nat, e: Scope, at: Path, s: State<M>, t: State<M>,
                     log: seq<Event>)
    requires k < |cs| && cs[k].Loop? && Known(cs[k].control) && cs[k].control != "sort"
    requires var inside := Turn(spec, cs[k].control, e, i);
             && inside.Some?
             && Tells(spec, cs[k].body, inside.value, at + [Step(k, i)], Step(0, 0), Step(|cs[k].body|, 0), s, t, log)
    ensures Tells(spec, cs, e, at, Step(k, i), Step(k, i + 1), s, t, log)
  {
    hide Tells, Turn;
    var x, inside := Step(k, i), Turn(spec, cs[k].control, e, i).value;
    forall held
      ensures Enters(spec, cs, e, at, x, held, cs[k].body, inside) && Find(spec, cs, e, at, held, [x]).None?
    {
      assert forall p: Path :: ([x] + p)[0] == x && ([x] + p)[1..] == p;
      NotHere(spec, cs[k].body, inside, at + [x], held);
    }
    TellsInside(spec, cs, e, at, x, s, cs[k].body, inside, t, log);
  }

  // One more turn of the loop over all sorts; nothing is run if it is not shown.
  lemma TellsSort<M>(spec: Spec<M>, cs: seq<Command>, k: nat, i: nat, e: Scope, at: Path, s: State<M>, t: State<M>,
                     log: seq<Event>)
    requires k < |cs| && cs[k].Loop? && cs[k].control == "sort" && i < |spec.sorts|
    requires var ok := spec.shown(s.marks, spec.sorts[i]);
             var bs := if ok then cs[k].body else [];
             Tells(spec, bs, e.(sort := Some(spec.sorts[i])), at + [Step(k, i)], Step(0, 0), Step(|bs|, 0), s, t, log)
    ensures var ok := spec.shown(s.marks, spec.sorts[i]);
            Tells(spec, cs, e, at, Step(k, i), Step(k, i + 1), s, t,
                  [Event(at + [Step(k, i)], Stop(cs[k], e.(sort := Some(spec.sorts[i]))), ok)] + log)
  {
    hide Tells;
    var x, inside, ok := Step(k, i), e.(sort := Some(spec.sorts[i])), spec.shown(s.marks, spec.sorts[i]);
    var bs := if ok then cs[k].body else [];
    forall held | at + [x] in held <==> ok ensures Enters(spec, cs, e, at, x, held, bs, inside) {
      assert forall p: Path :: ([x] + p)[0] == x && ([x] + p)[1..] == p;
    }
    TellsOne(spec, cs, e, at, x, Stop(cs[k], inside), ok, s, bs, inside, t, log);
  }

  // Behind the last turn.
  lemma TellsEnd<M>(spec: Spec<M>, cs: seq<Command>, k: nat, i: nat, e: Scope, at: Path, s: State<M>)
    requires k < |cs| && cs[k].Loop? && Known(cs[k].control)
    requires forall j: nat :: i <= j ==> Turn(spec, cs[k].control, e, j).None?
    ensures Tells(spec, cs, e, at, Step(k, i), Step(k + 1, 0), s, s, [])
  {
    hide Tells, Turn;
    TellsNothing(spec, cs, e, at, Step(k, i), Step(k + 1, 0), s);
  }

  lemma TellsNone<M>(spec: Spec<M>, cs: seq<Command>, e: Scope, at: Path, x: Step, s: State<M>)
    ensures Tells(spec, cs, e, at, x, x, s, s, [])
  {
    TellsNothing(spec, cs, e, at, x, x, s);
  }

  // All commands at the top: an account of the whole run.
  lemma WholeAccount<M>(spec: Spec<M>, cs: seq<Command>, e: Scope, s: State<M>, t: State<M>, log: seq<Event>)
    requires Tells(spec, cs, e, [], Step(0, 0), Step(|cs|, 0), s, t, log)
    ensures t == Replay(spec, log, s) && Account(spec, cs, e, s, log)
  {
    hide Find, Honest, Replay, Before;
    var held := HeldIn(log);
    HeldAgrees(log);
    forall j | 0 <= j < |log| ensures Find(spec, cs, e, [], held, log[j].at) == Some(log[j].stop) {
      assert log[j].at[0..] == log[j].at;
    }
    forall p | Find(spec, cs, e, [], held, p).Some? ensures exists j :: 0 <= j < |log| && log[j].at == p {
      if p == [] { NotHere(spec, cs, e, [], held); } else { BelowAny(p[0], spec, cs, e, [], held, p); }
      assert [] + p == p;
    }
  }

  lemma DifferAt(p: Path, q: Path, n: nat, m: nat)
    requires n < m && n < |p| && n < |q| && m <= |p| && m <= |q| && Less(p[n], q[n])
    ensures p[..m] != q[..m]
  {
    assert p[..m][n] == p[n] && q[..m][n] == q[n];
  }

  lemma NotBoth(p: Path, q: Path)
    requires Before(p, q)
    ensures p != q && !Before(q, p)
  {
    var n: nat :| n <= |p| && n < |q| && p[..n] == q[..n] && (n == |p| || Less(p[n], q[n]));
    forall m: nat | m <= |q| && m < |p| && q[..m] == p[..m] ensures !(m == |q| || Less(q[m], p[m])) {
      if m < n {
        assert p[..n][m] == q[..n][m];
      } else if m > n {
        DifferAt(p, q, n, m);
      }
    }
  }

  // Nothing happens twice, so what held is known from the log.
  lemma HeldAgrees(log: seq<Event>)
    requires InOrder(log)
    ensures Agrees(HeldIn(log), log)
    ensures forall i, j :: 0 <= i < j < |log| ==> log[i].at != log[j].at
  {
    hide Before;
    forall i, j | 0 <= i < j < |log| ensures log[i].at != log[j].at {
      NotBoth(log[i].at, log[j].at);
    }
  }

  // ----- a run has one account

  // What happens at a place depends on what held above it.
  lemma {:induction false} FindSame<M>(spec: Spec<M>, cs: seq<Command>, e: Scope, at: Path, h: set<Path>, h': set<Path>,
                                       p: Path)
    requires forall n :: 0 < n < |p| && Find(spec, cs, e, at, h, p[..n]).Some? ==>
               (at + p[..n] in h <==> at + p[..n] in h')
    ensures Find(spec, cs, e, at, h, p) == Find(spec, cs, e, at, h', p)
    decreases |p|
  {
    if p != [] && p[0].k < |cs| && p[1..] != [] {
      var c, here, more := cs[p[0].k], at + [p[0]], p[1..];
      assert p[..1] == [p[0]];
      forall n, bs, e' | 0 < n < |more| && Find(spec, bs, e', here, h, more[..n]).Some?
                         && Find(spec, cs, e, at, h, p[..n + 1]) == Find(spec, bs, e', here, h, more[..n])
        ensures here + more[..n] in h <==> here + more[..n] in h'
      {
        assert here + more[..n] == at + p[..n + 1];
      }
      forall n | 0 < n < |more| ensures p[..n + 1][0] == p[0] && p[..n + 1][1..] == more[..n] {}
      match c
      case Cond(_, yes, no) =>
        if p[0].turn == 0 {
          if here in h {
            FindSame(spec, yes, e, here, h, h', more);
          } else if no.Else? {
            FindSame(spec, no.cmds, e, here, h, h', more);
          }
        }
      case Loop(control, body) =>
        var inside := Turn(spec, control, e, p[0].turn);
        if Known(control) && inside.Some? && (control != "sort" || here in h) {
          FindSame(spec, body, inside.value, here, h, h', more);
        }
      case _ =>
    }
  }

  // The next event of one account is in the other one, and not sooner.
  lemma NextFound<M>(spec: Spec<M>, cs: seq<Command>, e: Scope, s: State<M>, a: seq<Event>, b: seq<Event>, j: nat)
    returns (i: nat)
    requires Account(spec, cs, e, s, a) && Account(spec, cs, e, s, b)
    requires j < |a| && j <= |b| && a[..j] == b[..j]
    ensures j <= i < |b| && b[i].at == a[j].at && b[i].stop == a[j].stop
  {
    hide Find, Honest, Before;
    var p, h, h' := a[j].at, HeldIn(a), HeldIn(b);
    forall i | 0 <= i < j ensures a[i] == b[i] { assert a[i] == a[..j][i] == b[..j][i] == b[i]; }
    HeldAgrees(a);
    HeldAgrees(b);
    forall n | 0 < n < |p| && Find(spec, cs, e, [], h, p[..n]).Some?
      ensures [] + p[..n] in h <==> [] + p[..n] in h'
    {
      assert [] + p[..n] == p[..n];
      var i :| 0 <= i < |a| && a[i].at == p[..n];
      Above(p[..n], p);
      NotBoth(p[..n], p);
      assert i < j;
    }
    FindSame(spec, cs, e, [], h, h', p);
    i :| 0 <= i < |b| && b[i].at == p;
  }

  lemma NextSame<M>(spec: Spec<M>, cs: seq<Command>, e: Scope, s: State<M>, a: seq<Event>, b: seq<Event>, j: nat)
    requires Account(spec, cs, e, s, a) && Account(spec, cs, e, s, b)
    requires j < |a| && j <= |b| && a[..j] == b[..j]
    ensures j < |b| && a[j] == b[j]
  {
    hide Account, Before;
    var i := NextFound(spec, cs, e, s, a, b, j);
    var i' := NextFound(spec, cs, e, s, b, a, j);
    InTurn(spec, cs, e, s, a, j, i');
    InTurn(spec, cs, e, s, b, j, i);
    if a[j].at != b[j].at { NotBoth(a[j].at, b[j].at); }
  }

  lemma InTurn<M>(spec: Spec<M>, cs: seq<Command>, e: Scope, s: State<M>, a: seq<Event>, j: nat, i: nat)
    requires Account(spec, cs, e, s, a) && j <= i < |a|
    ensures a[i].at == a[j].at ==> i == j
    ensures i > j ==> Before(a[j].at, a[i].at)
    ensures a[j].held == Holds(spec, a[j].stop, Replay(spec, a[..j], s).marks)
  {
    hide Find, Before, Holds, Replay;
    HeldAgrees(a);
  }

  lemma {:induction false} SameUpTo<M>(spec: Spec<M>, cs: seq<Command>, e: Scope, s: State<M>,
                                       a: seq<Event>, b: seq<Event>, j: nat)
    requires Account(spec, cs, e, s, a) && Account(spec, cs, e, s, b) && j <= |a|
    ensures j <= |b| && a[..j] == b[..j]
  {
    hide Account;
    if j > 0 {
      SameUpTo(spec, cs, e, s, a, b, j - 1);
      NextSame(spec, cs, e, s, a, b, j - 1);
      assert a[..j] == a[..j - 1] + [a[j - 1]] && b[..j] == b[..j - 1] + [b[j - 1]];
    }
  }

  // So an account says all there is to say about a run.
  lemma AccountOnce<M>(spec: Spec<M>, cs: seq<Command>, e: Scope, s: State<M>, a: seq<Event>, b: seq<Event>)
    requires Account(spec, cs, e, s, a) && Account(spec, cs, e, s, b)
    ensures a == b
  {
    hide Account;
    SameUpTo(spec, cs, e, s, a, b, |a|);
    SameUpTo(spec, cs, e, s, b, a, |b|);
    assert a[..|a|] == a && b[..|b|] == b;
  }

  // ----- what a template means has an account

  lemma {:induction false} MeaningTold<M>(spec: Spec<M>, cs: seq<Command>, k: nat, e: Scope, at: Path, s: State<M>)
    returns (log: seq<Event>)
    requires k < |cs|
    ensures Tells(spec, cs, e, at, Step(k, 0), Step(k + 1, 0), s, Meaning(spec, cs[k], e, s), log)
    decreases cs[k], 2
  {
    hide Tells;
    match cs[k]
    case Cond(control, yes, no) =>
      var here, ok := at + [Step(k, 0)], spec.test(control, e, s.marks);
      var bs := Branch(cs[k], ok);
      if bs != [] {
        log := MeaningAllTold(spec, bs, e, here, s);
      } else {
        TellsNone(spec, bs, e, here, Step(0, 0), s);
        log := [];
      }
      TellsCond(spec, cs, k, e, at, s, MeaningAll(spec, bs, e, s), log);
      log := [Event(here, Stop(cs[k], e), ok)] + log;
    case Loop(control, body) =>
      if Known(control) {
        log := LoopTold(spec, cs, k, e, at, s);
      } else {
        TellsLeaf(spec, cs, k, e, at, s);
        log := [Event(at + [Step(k, 0)], Stop(cs[k], e), false)];
      }
    case _ =>
      TellsLeaf(spec, cs, k, e, at, s);
      log := [Event(at + [Step(k, 0)], Stop(cs[k], e), false)];
  }

  lemma {:induction false} MeaningAllTold<M>(spec: Spec<M>, cs: seq<Command>, e: Scope, at: Path, s: State<M>)
    returns (log: seq<Event>)
    ensures Tells(spec, cs, e, at, Step(0, 0), Step(|cs|, 0), s, MeaningAll(spec, cs, e, s), log)
    decreases cs, 3
  {
    hide Tells, Meaning;
    log := [];
    TellsNone(spec, cs, e, at, Step(0, 0), s);
    var p, now := 0, s;
    assert cs[0..] == cs;
    while p < |cs|
      invariant p <= |cs| && Tells(spec, cs, e, at, Step(0, 0), Step(p, 0), s, now, log)
      invariant MeaningAll(spec, cs[p..], e, now) == MeaningAll(spec, cs, e, s)
    {
      assert cs[p..][0] == cs[p] && cs[p..][1..] == cs[p + 1..];
      var more := MeaningTold(spec, cs, p, e, at, now);
      var after := Meaning(spec, cs[p], e, now);
      TellsThen(spec, cs, e, at, Step(0, 0), Step(p, 0), Step(p + 1, 0), s, now, after, log, more);
      log, now, p := log + more, after, p + 1;
    }
  }

  lemma {:induction false} LoopTold<M>(spec: Spec<M>, cs: seq<Command>, k: nat, e: Scope, at: Path, s: State<M>)
    returns (log: seq<Event>)
    requires k < |cs| && cs[k].Loop? && Known(cs[k].control)
    ensures Tells(spec, cs, e, at, Step(k, 0), Step(k + 1, 0), s, Meaning(spec, cs[k], e, s), log)
    decreases cs[k], 1
  {
    hide Tells;
    var control, body := cs[k].control, cs[k].body;
    if control == "sort" {
      log := SortsTold(spec, cs, k, 0, e, at, s);
    } else if control == "sort.cons" && e.sort.Some? {
      log := ConsesTold(spec, cs, k, 0, e, at, s);
    } else if control != "sort.cons" && e.cons.Some? {
      log := ParamsTold(spec, cs, k, 0, e, at, s);
    } else {
      TellsEnd(spec, cs, k, 0, e, at, s);
      log := [];
    }
  }

  lemma {:induction false} SortsTold<M>(spec: Spec<M>, cs: seq<Command>, k: nat, i: nat, e: Scope, at: Path,
                                        s: State<M>)
    returns (log: seq<Event>)
    requires k < |cs| && cs[k].Loop? && cs[k].control == "sort" && i <= |spec.sorts|
    ensures Tells(spec, cs, e, at, Step(k, i), Step(k + 1, 0), s, OverSorts(spec, cs[k].body, i, e, s), log)
    decreases cs[k], 0, |spec.sorts| - i
  {
    hide Tells;
    if i == |spec.sorts| {
      TellsEnd(spec, cs, k, i, e, at, s);
      return [];
    }
    var body, here := cs[k].body, at + [Step(k, i)];
    var inside, ok := e.(sort := Some(spec.sorts[i])), spec.shown(s.marks, spec.sorts[i]);
    var t := if ok then MeaningAll(spec, body, inside, s) else s;
    var one := [];
    if ok {
      one := MeaningAllTold(spec, body, inside, here, s);
    } else {
      TellsNone(spec, [], inside, here, Step(0, 0), s);
    }
    TellsSort(spec, cs, k, i, e, at, s, t, one);
    one := [Event(here, Stop(cs[k], inside), ok)] + one;
    var more := SortsTold(spec, cs, k, i + 1, e, at, t);
    var end := OverSorts(spec, body, i + 1, e, t);
    TellsThen(spec, cs, e, at, Step(k, i), Step(k, i + 1), Step(k + 1, 0), s, t, end, one, more);
    log := one + more;
  }

  lemma {:induction false} ConsesTold<M>(spec: Spec<M>, cs: seq<Command>, k: nat, i: nat, e: Scope, at: Path,
                                         s: State<M>)
    returns (log: seq<Event>)
    requires k < |cs| && cs[k].Loop? && cs[k].control == "sort.cons"
    requires e.sort.Some? && i <= |spec.conses(e.sort.value)|
    ensures Tells(spec, cs, e, at, Step(k, i), Step(k + 1, 0), s,
                  OverConses(spec, cs[k].body, spec.conses(e.sort.value), i, e, s), log)
    decreases cs[k], 0, |spec.conses(e.sort.value)| - i
  {
    hide Tells;
    var conses, body := spec.conses(e.sort.value), cs[k].body;
    if i == |conses| {
      TellsEnd(spec, cs, k, i, e, at, s);
      return [];
    }
    var inside := e.(cons := Some(conses[i]));
    var t := MeaningAll(spec, body, inside, s);
    var one := MeaningAllTold(spec, body, inside, at + [Step(k, i)], s);
    TellsTurn(spec, cs, k, i, e, at, s, t, one);
    var more := ConsesTold(spec, cs, k, i + 1, e, at, t);
    var end := OverConses(spec, body, conses, i + 1, e, t);
    TellsThen(spec, cs, e, at, Step(k, i), Step(k, i + 1), Step(k + 1, 0), s, t, end, one, more);
    log := one + more;
  }

  lemma {:induction false} ParamsTold<M>(spec: Spec<M>, cs: seq<Command>, k: nat, i: nat, e: Scope, at: Path,
                                         s: State<M>)
    returns (log: seq<Event>)
    requires k < |cs| && cs[k].Loop? && (cs[k].control == "cons.param" || cs[k].control == "param.prev")
    requires e.cons.Some? && i <= |spec.pars(e.cons.value)|
    ensures var ps := spec.pars(e.cons.value);
            var most := if cs[k].control == "cons.param" then |ps| else e.paramNo;
            Tells(spec, cs, e, at, Step(k, i), Step(k + 1, 0), s,
                  OverParams(spec, cs[k].body, ps, most, most - 1, i, e, s), log)
    decreases cs[k], 0, |spec.pars(e.cons.value)| - i
  {
    hide Tells;
    var ps, body := spec.pars(e.cons.value), cs[k].body;
    var most := if cs[k].control == "cons.param" then |ps| else e.paramNo;
    if i == |ps| || i >= most {
      TellsEnd(spec, cs, k, i, e, at, s);
      return [];
    }
    var inside := e.(param := Some(ps[i]), paramNo := i, lastParamNo := most - 1);
    var t := MeaningAll(spec, body, inside, s);
    var one := MeaningAllTold(spec, body, inside, at + [Step(k, i)], s);
    TellsTurn(spec, cs, k, i, e, at, s, t, one);
    var more := ParamsTold(spec, cs, k, i + 1, e, at, t);
    var end := OverParams(spec, body, ps, most, most - 1, i + 1, e, t);
    TellsThen(spec, cs, e, at, Step(k, i), Step(k, i + 1), Step(k + 1, 0), s, t, end, one, more);
    log := one + more;
  }

  // Every run does just what some account, the only one, says.
  lemma MeaningAccount<M>(spec: Spec<M>, cs: seq<Command>, e: Scope, s: State<M>)
    ensures exists log :: Account(spec, cs, e, s, log)
    ensures forall log :: Account(spec, cs, e, s, log) ==> MeaningAll(spec, cs, e, s) == Replay(spec, log, s)
  {
    hide Account, Tells, Replay, MeaningAll;
    var log := MeaningAllTold(spec, cs, e, [], s);
    WholeAccount(spec, cs, e, s, MeaningAll(spec, cs, e, s), log);
    forall other | Account(spec, cs, e, s, other) ensures MeaningAll(spec, cs, e, s) == Replay(spec, other, s) {
      AccountOnce(spec, cs, e, s, log, other);
    }
  }

  // ----- what follows a test

  lemma FindOne<M>(spec: Spec<M>, cs: seq<Command>, e: Scope, at: Path, held: set<Path>, x: Step)
    ensures var v := Find(spec, cs, e, at, held, [x]);
            v.Some? ==> x.k < |cs| && v.value.cmd == cs[x.k]
  {
    if x.k < |cs| && cs[x.k].Loop? && Turn(spec, cs[x.k].control, e, x.turn).Some? {
      NotHere(spec, cs[x.k].body, Turn(spec, cs[x.k].control, e, x.turn).value, at + [x], held);
    }
  }

  // Right below a condition, or a turn of the loop over all sorts, come the
  // commands that it decides on.
  lemma {:induction false} FindBelow<M>(spec: Spec<M>, cs: seq<Command>, e: Scope, at: Path, held: set<Path>,
                                        p: Path, x: Step, v: Stop, w: Stop)
    requires Find(spec, cs, e, at, held, p) == Some(v) && Find(spec, cs, e, at, held, p + [x]) == Some(w)
    ensures v.cmd.Cond? || (v.cmd.Loop? && v.cmd.control == "sort" && at + p in held)
    ensures v.cmd.Cond? && at + p in held ==> x.k < |v.cmd.yes| && w.cmd == v.cmd.yes[x.k]
    ensures v.cmd.Cond? && at + p !in held ==>
              v.cmd.no.Else? && x.k < |v.cmd.no.cmds| && w.cmd == v.cmd.no.cmds[x.k]
    ensures v.cmd.Loop? ==> x.k < |v.cmd.body| && w.cmd == v.cmd.body[x.k]
    decreases |p|
  {
    var c, here, more := cs[p[0].k], at + [p[0]], p[1..];
    assert (p + [x])[0] == p[0] && (p + [x])[1..] == more + [x];
    assert at + p == here + more;
    if more == [] {
      assert p == [p[0]] && [] + [x] == [x];
      match c
      case Cond(_, yes, no) =>
        if here in held {
          FindOne(spec, yes, e, here, held, x);
        } else if no.Else? {
          FindOne(spec, no.cmds, e, here, held, x);
        }
      case Loop(control, body) =>
        if Known(control) { FindOne(spec, body, Turn(spec, control, e, p[0].turn).value, here, held, x); }
      case _ =>
    } else {
      match c
      case Cond(_, yes, no) =>
        FindBelow(spec, if here in held then yes else no.cmds, e, here, held, more, x, v, w);
      case Loop(control, body) =>
        FindBelow(spec, body, Turn(spec, control, e, p[0].turn).value, here, held, more, x, v, w);
    }
  }

  // A condition goes into its first commands if the test holds in its scope with
  // the marks of that time, and into the others if not; the loop over all sorts
  // runs its commands for a sort that is shown then.
  lemma TestsDecide<M>(spec: Spec<M>, cs: seq<Command>, e: Scope, s: State<M>, log: seq<Event>, j: nat, i: nat)
    requires Account(spec, cs, e, s, log) && j < |log| && i < |log|
    requires |log[i].at| == |log[j].at| + 1 && log[i].at[..|log[j].at|] == log[j].at
    ensures var v, marks, next := log[j].stop, Replay(spec, log[..j], s).marks, log[i].at[|log[j].at|];
            && j < i
            && (v.cmd.Cond? && spec.test(v.cmd.control, v.scope, marks) ==>
                  next.k < |v.cmd.yes| && log[i].stop.cmd == v.cmd.yes[next.k])
            && (v.cmd.Cond? && !spec.test(v.cmd.control, v.scope, marks) ==>
                  v.cmd.no.Else? && next.k < |v.cmd.no.cmds| && log[i].stop.cmd == v.cmd.no.cmds[next.k])
            && (!v.cmd.Cond? ==>
                  && v.cmd.Loop? && v.scope.sort.Some? && spec.shown(marks, v.scope.sort.value)
                  && next.k < |v.cmd.body| && log[i].stop.cmd == v.cmd.body[next.k])
  {
    hide Find, Before, Replay;
    var p, x := log[j].at, log[i].at[|log[j].at|];
    HeldAgrees(log);
    assert log[i].at == p + [x] && [] + p == p;
    FindBelow(spec, cs, e, [], HeldIn(log), p, x, log[j].stop, log[i].stop);
    Above(p, log[i].at);
    NotBoth(p, log[i].at);
  }
}
