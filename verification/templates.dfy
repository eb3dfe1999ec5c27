// Template files: read_template in make_tdf/src/lex.c.
module Templates {

  datatype Option<T> = None | Some(value: T)

  // The commands of the else part of a condition.
  datatype Else = NoElse | Else(cmds: seq<Command>)

  datatype Command =
    | Simple(text: string)
    | Loop(control: string, body: seq<Command>)
    | Cond(control: string, yes: seq<Command>, no: Else)
    | Use(sort: string, cons: Option<string>)
    | Special(sort: string, cons: Option<string>)

  // A line of a template file, by its first words.
  datatype Line =
    | Plain(text: string)
    | IfLine(control: string)
    | ElseLine
    | EndifLine
    | LoopLine(control: string)
    | EndLine
    | UseLine(sort: string, cons: Option<string>)
    | SpecialLine(sort: string, cons: Option<string>)
    | CommentLine
    | UnknownLine(name: string)

  // What the commands being read are the body of.
  datatype Place = File | InIf | InLoop

  // ----- a template as it is written

  function Written(cs: seq<Command>): seq<Line> {
    if cs == [] then [] else WrittenOne(cs[0]) + Written(cs[1..])
  }

  function WrittenOne(c: Command): seq<Line> {
    match c
    case Simple(text) => [Plain(text)]
    case Loop(control, body) => [LoopLine(control)] + Written(body) + [EndLine]
    case Cond(control, yes, no) =>
      [IfLine(control)] + Written(yes)
      + (match no case NoElse => [] case Else(cs) => [ElseLine] + Written(cs)) + [EndifLine]
    case Use(sort, cons) => [UseLine(sort, cons)]
    case Special(sort, cons) => [SpecialLine(sort, cons)]
  }

  // How commands are written, one behind the other.
  lemma {:induction false} WrittenForms(a: seq<Command>, b: seq<Command>, control: string)
    ensures Written(a + b) == Written(a) + Written(b) && Written([]) == []
    ensures Written([Loop(control, a)]) == [LoopLine(control)] + Written(a) + [EndLine]
    ensures Written([Cond(control, a, NoElse)]) == [IfLine(control)] + Written(a) + [EndifLine]
    ensures Written([Cond(control, a, Else(b))]) ==
              [IfLine(control)] + Written(a) + [ElseLine] + Written(b) + [EndifLine]
    decreases |a|
  {
    if a == [] {
      assert a + b == b;
    } else {
      assert (a + b)[0] == a[0] && (a + b)[1..] == a[1..] + b;
      WrittenForms(a[1..], b, control);
    }
    assert Written([]) == [];
  }

  // Lines without the comments.
  function Bare(ls: seq<Line>): seq<Line> {
    if ls == [] then []
    else (if ls[0].CommentLine? then [] else [ls[0]]) + Bare(ls[1..])
  }

  // The two parts of a body that may be split by an else.
  function WrittenBody(first: Option<seq<Command>>, cs: seq<Command>): seq<Line> {
    match first
    case None => Written(cs)
    case Some(yes) => Written(yes) + [ElseLine] + Written(cs)
  }

  function Closing(p: Place): seq<Line> {
    match p
    case File => []
    case InIf => [EndifLine]
    case InLoop => [EndLine]
  }

  lemma {:induction false} WrittenSnoc(cs: seq<Command>, c: Command)
    ensures Written(cs + [c]) == Written(cs) + WrittenOne(c)
    decreases |cs|
  {
    if cs == [] {
      assert [c][1..] == [] && Written([]) == [];
      assert [] + [c] == [c] && WrittenOne(c) + [] == WrittenOne(c) && [] + WrittenOne(c) == WrittenOne(c);
    } else {
      assert (cs + [c])[1..] == cs[1..] + [c];
      WrittenSnoc(cs[1..], c);
      assert WrittenOne(cs[0]) + (Written(cs[1..]) + WrittenOne(c))
          == WrittenOne(cs[0]) + Written(cs[1..]) + WrittenOne(c);
    }
  }

  lemma {:induction false} BareConcat(a: seq<Line>, b: seq<Line>)
    ensures Bare(a + b) == Bare(a) + Bare(b)
    decreases |a|
  {
    if a == [] {
      assert a + b == b && [] + Bare(b) == Bare(b);
    } else {
      assert (a + b)[1..] == a[1..] + b;
      BareConcat(a[1..], b);
      var h := if a[0].CommentLine? then [] else [a[0]];
      assert h + (Bare(a[1..]) + Bare(b)) == h + Bare(a[1..]) + Bare(b);
    }
  }

  // One more line.
  lemma BareSnoc(ls: seq<Line>, i: nat, j: nat)
    requires i <= j < |ls|
    ensures Bare(ls[i..j + 1]) == Bare(ls[i..j]) + if ls[j].CommentLine? then [] else [ls[j]]
  {
    assert ls[i..j + 1] == ls[i..j] + [ls[j]];
    BareConcat(ls[i..j], [ls[j]]);
    assert Bare([ls[j]]) == if ls[j].CommentLine? then [] else [ls[j]];
  }

  // What is expected to be read, if anything is: the part in front of an else,
  // and what follows.
  datatype Plan = Plan(on: bool, first: Option<seq<Command>>, body: seq<Command>) {
    predicate Holds(p: Place) { on && (p != InIf ==> first == None) }

    function Lines(): seq<Line> { WrittenBody(first, body) }

    function Current(): seq<Command> { if first.Some? then first.value else body }

    // Behind the next command.
    function Tail(): Plan {
      if Current() == [] then this
      else if first.Some? then Plan(on, Some(first.value[1..]), body)
      else Plan(on, None, body[1..])
    }

    // The body of the next command.
    function Inner(): Plan {
      if Current() == [] then Plan(false, None, [])
      else match Current()[0]
        case Cond(_, yes, NoElse) => Plan(on, None, yes)
        case Cond(_, yes, Else(no)) => Plan(on, Some(yes), no)
        case Loop(_, inside) => Plan(on, None, inside)
        case _ => Plan(false, None, [])
    }

    // What has been read and what is left make the plan.
    predicate Is(done: Option<seq<Command>>, q: seq<Command>, todo: Plan) {
      if todo.first.Some? then done == None && first == Some(q + todo.first.value) && body == todo.body
      else done == first && body == q + todo.body
    }
  }

  lemma IsStart(plan: Plan)
    ensures plan.Is(None, [], plan)
  {
    assert [] + plan.Current() == plan.Current();
  }

  // Passing an else.
  lemma IsElse(plan: Plan, done: Option<seq<Command>>, q: seq<Command>, todo: Plan)
    requires plan.Is(done, q, todo) && todo.Current() == [] && todo.first.Some?
    ensures done == None && plan.Is(Some(q), [], Plan(true, None, todo.body))
  {
    assert q + [] == q && [] + todo.body == todo.body;
  }

  lemma IsDone(plan: Plan, done: Option<seq<Command>>, q: seq<Command>, todo: Plan)
    requires plan.Is(done, q, todo) && todo.first.None? && todo.body == []
    ensures done == plan.first && q == plan.body
  {
    assert q + [] == q;
  }

  lemma IsNext(plan: Plan, done: Option<seq<Command>>, q: seq<Command>, todo: Plan)
    requires plan.Is(done, q, todo) && todo.Current() != []
    ensures plan.Is(done, q + [todo.Current()[0]], todo.Tail())
  {
    var cs := todo.Current();
    assert q + cs == q + [cs[0]] + cs[1..];
  }

  lemma LinesNext(todo: Plan)
    requires todo.Current() != []
    ensures todo.Lines() == WrittenOne(todo.Current()[0]) + todo.Tail().Lines()
  {
    var cs := todo.Current();
    assert Written(cs) == WrittenOne(cs[0]) + Written(cs[1..]);
    if todo.first.Some? {
      assert WrittenOne(cs[0]) + Written(cs[1..]) + [ElseLine] + Written(todo.body)
          == WrittenOne(cs[0]) + (Written(cs[1..]) + [ElseLine] + Written(todo.body));
    }
  }

  lemma LinesDone(todo: Plan)
    requires todo.Current() == []
    ensures todo.Lines() == if todo.first.Some? then [ElseLine] + Plan(true, None, todo.body).Lines() else []
  {
    if todo.first.Some? { assert [] + [ElseLine] + Written(todo.body) == [ElseLine] + Written(todo.body); }
  }

  // The next line of a plan.
  ghost predicate Expected(todo: Plan, p: Place, rest: seq<Line>, line: Line, tail: seq<Line>) {
    var cs, after := todo.Current(), todo.Tail().Lines() + Closing(p) + rest;
    match line
    case Plain(text) => cs != [] && cs[0] == Simple(text) && tail == after
    case UseLine(sort, cons) => cs != [] && cs[0] == Use(sort, cons) && tail == after
    case SpecialLine(sort, cons) => cs != [] && cs[0] == Special(sort, cons) && tail == after
    case IfLine(control) =>
      cs != [] && cs[0].Cond? && cs[0].control == control && tail == todo.Inner().Lines() + [EndifLine] + after
    case LoopLine(control) =>
      cs != [] && cs[0].Loop? && cs[0].control == control && tail == todo.Inner().Lines() + [EndLine] + after
    case ElseLine =>
      cs == [] && p == InIf && todo.first.Some? && tail == Plan(true, None, todo.body).Lines() + Closing(p) + rest
    case EndifLine => cs == [] && todo.first.None? && p == InIf && tail == rest
    case EndLine => cs == [] && todo.first.None? && p == InLoop && tail == rest
    case UnknownLine(_) => false
    case CommentLine => true
  }

  lemma Split(line: Line, tail: seq<Line>, one: seq<Line>, more: seq<Line>)
    requires [line] + tail == one + more && one != []
    ensures line == one[0] && tail == one[1..] + more
  {
    assert ([line] + tail)[0] == line && ([line] + tail)[1..] == tail;
    assert (one + more)[1..] == one[1..] + more;
  }

  lemma AtLine(todo: Plan, p: Place, rest: seq<Line>, line: Line, tail: seq<Line>)
    requires todo.Holds(p) && (p == File ==> rest == [])
    requires [line] + tail == todo.Lines() + Closing(p) + rest && !line.CommentLine?
    ensures Expected(todo, p, rest, line, tail)
  {
    hide Written, WrittenBody;
    if todo.Current() != [] {
      LinesNext(todo);
      var one, after := WrittenOne(todo.Current()[0]), todo.Tail().Lines() + Closing(p) + rest;
      assert one + todo.Tail().Lines() + Closing(p) + rest == one + after;
      Split(line, tail, one, after);
      FirstLine(todo, after);
    } else {
      LinesDone(todo);
      if todo.first.Some? {
        var body := Plan(true, None, todo.body).Lines();
        assert [ElseLine] + body + Closing(p) + rest == [ElseLine] + (body + Closing(p) + rest);
        Split(line, tail, [ElseLine], body + Closing(p) + rest);
      } else {
        assert [] + Closing(p) + rest == Closing(p) + rest;
        if p != File {
          Split(line, tail, Closing(p), rest);
        }
      }
    }
  }

  // The first line of a command, and what follows it.
  lemma FirstLine(todo: Plan, after: seq<Line>)
    requires todo.Current() != []
    ensures var c := todo.Current()[0];
            var one := WrittenOne(c);
            && one != []
            && (c.Simple? || c.Use? || c.Special? ==> one[1..] + after == after)
            && (c.Cond? ==>
                  one[0] == IfLine(c.control) && one[1..] + after == todo.Inner().Lines() + [EndifLine] + after)
            && (c.Loop? ==>
                  one[0] == LoopLine(c.control) && one[1..] + after == todo.Inner().Lines() + [EndLine] + after)
  {
    hide Written, WrittenBody, WrittenOne;
    var c := todo.Current()[0];
    match c
    case Simple(_) => WrittenLine(c);
    case Use(_, _) => WrittenLine(c);
    case Special(_, _) => WrittenLine(c);
    case Loop(control, body) =>
      WrittenLoop(control, body);
      assert ([LoopLine(control)] + WrittenBody(None, body) + [EndLine])[1..] == WrittenBody(None, body) + [EndLine];
    case Cond(control, yes, no) =>
      var v, u := if no.NoElse? then None else Some(yes), if no.NoElse? then yes else no.cmds;
      WrittenCond(control, v, u);
      assert ([IfLine(control)] + WrittenBody(v, u) + [EndifLine])[1..] == WrittenBody(v, u) + [EndifLine];
  }

  // At the end of the file.
  lemma AtEnd(p: Place, todo: Plan, rest: seq<Line>)
    requires [] == todo.Lines() + Closing(p) + rest
    ensures p == File && rest == [] && todo.first == None && todo.body == []
  {
    hide Written, WrittenBody;
    if todo.Current() != [] {
      LinesNext(todo);
      FirstLine(todo, []);
    } else {
      LinesDone(todo);
    }
  }

  lemma BareNext(ls: seq<Line>, i: nat)
    requires i < |ls|
    ensures Bare(ls[i..]) == (if ls[i].CommentLine? then [] else [ls[i]]) + Bare(ls[i + 1..])
  {
    assert ls[i..][1..] == ls[i + 1..];
  }

  // The state of the reader of a body that starts at start, next lines on: what
  // has been read is what is written there, and of a plan the rest is ahead.
  ghost predicate Reading(ls: seq<Line>, start: nat, next: nat, bad: bool, p: Place,
                          first: Option<seq<Command>>, q: seq<Command>, plan: Plan, todo: Plan, rest: seq<Line>) {
    && start <= next <= |ls| && (p != InIf ==> first == None)
    && (!bad ==> Bare(ls[start..next]) == WrittenBody(first, q))
    && (plan.Holds(p) ==>
          && !bad && plan.Is(first, q, todo) && todo.Holds(p) && (p == File ==> rest == [])
          && Bare(ls[next..]) == todo.Lines() + Closing(p) + rest)
  }

  // What a reader that has finished with a body has read.
  ghost predicate Finished(ls: seq<Line>, start: nat, next: nat, bad: bool, p: Place,
                           first: Option<seq<Command>>, q: seq<Command>, plan: Plan, rest: seq<Line>) {
    && start <= next <= |ls| && (p != InIf ==> first == None)
    && (!bad ==> Bare(ls[start..next]) == WrittenBody(first, q) + Closing(p))
    && (plan.Holds(p) ==> !bad && first == plan.first && q == plan.body && Bare(ls[next..]) == rest)
  }

  // What is ahead of a reader with a plan.
  ghost predicate Ahead(ls: seq<Line>, next: nat, p: Place, plan: Plan, rest: seq<Line>)
    requires next <= |ls|
  {
    plan.Holds(p) ==> Bare(ls[next..]) == plan.Lines() + Closing(p) + rest && (p == File ==> rest == [])
  }

  lemma Started(ls: seq<Line>, start: nat, p: Place, plan: Plan, rest: seq<Line>)
    requires start <= |ls| && Ahead(ls, start, p, plan, rest)
    ensures Reading(ls, start, start, false, p, None, [], plan, plan, rest)
  {
    hide Written, Plan.Lines;
    NoLines(ls, start);
    IsStart(plan);
  }

  lemma EndOfFile(ls: seq<Line>, start: nat, bad: bool, p: Place,
                    first: Option<seq<Command>>, q: seq<Command>,
                  plan: Plan, todo: Plan, rest: seq<Line>)
    requires Reading(ls, start, |ls|, bad, p, first, q, plan, todo, rest)
    ensures Finished(ls, start, |ls|, bad || p != File, p, first, q, plan, rest)
  {
    hide Written, WrittenBody, Plan.Lines, Plan.Is;
    assert ls[|ls|..] == [];
    ConcatNone(WrittenBody(first, q));
    if plan.Holds(p) {
      AtEnd(p, todo, rest);
      IsDone(plan, first, q, todo);
    }
  }

  lemma OneLine(ls: seq<Line>, i: nat, p: Place, todo: Plan, rest: seq<Line>)
    requires i < |ls| && todo.Holds(p) && (p == File ==> rest == [])
    requires Bare(ls[i..]) == todo.Lines() + Closing(p) + rest
    ensures ls[i].CommentLine? ==> Bare(ls[i + 1..]) == Bare(ls[i..])
    ensures Expected(todo, p, rest, ls[i], Bare(ls[i + 1..]))
  {
    hide Bare, Plan.Lines;
    BareNext(ls, i);
    if ls[i].CommentLine? {
      assert [] + Bare(ls[i + 1..]) == Bare(ls[i + 1..]);
    } else {
      AtLine(todo, p, rest, ls[i], Bare(ls[i + 1..]));
    }
  }

  lemma StepComment(ls: seq<Line>, start: nat, i: nat, bad: bool, p: Place,
                    first: Option<seq<Command>>, q: seq<Command>,
                    plan: Plan, todo: Plan, rest: seq<Line>)
    requires i < |ls| && Reading(ls, start, i, bad, p, first, q, plan, todo, rest) && ls[i].CommentLine?
    ensures Reading(ls, start, i + 1, bad, p, first, q, plan, todo, rest)
  {
    hide Written, WrittenBody, Bare, Plan.Lines, Plan.Is;
    BareSnoc(ls, start, i);
    ConcatNone(WrittenBody(first, q));
    if plan.Holds(p) { OneLine(ls, i, p, todo, rest); }
  }

  // A command on one line.
  lemma StepSimple(ls: seq<Line>, start: nat, i: nat, bad: bool, p: Place,
                    first: Option<seq<Command>>, q: seq<Command>,
                   plan: Plan, todo: Plan, rest: seq<Line>, c: Command)
    requires i < |ls| && Reading(ls, start, i, bad, p, first, q, plan, todo, rest)
    requires !ls[i].CommentLine? && (c.Simple? || c.Use? || c.Special?) && [ls[i]] == WrittenOne(c)
    ensures Reading(ls, start, i + 1, bad, p, first, q + [c], plan, todo.Tail(), rest)
  {
    hide Written, WrittenBody, Bare, Plan.Lines, Plan.Is;
    BareSnoc(ls, start, i);
    WrittenMore(first, q, c);
    if plan.Holds(p) {
      OneLine(ls, i, p, todo, rest);
      IsNext(plan, first, q, todo);
    }
  }

  // A line that does not belong there.
  lemma StepBad(ls: seq<Line>, start: nat, i: nat, bad: bool, p: Place,
                    first: Option<seq<Command>>, q: seq<Command>,
                plan: Plan, todo: Plan, rest: seq<Line>)
    requires i < |ls| && Reading(ls, start, i, bad, p, first, q, plan, todo, rest)
    requires ls[i].UnknownLine? || (ls[i].EndLine? && p != InLoop)
             || ((ls[i].EndifLine? || ls[i].ElseLine?) && p != InIf)
    ensures Reading(ls, start, i + 1, true, p, first, q, plan, todo, rest)
  {
    hide Written, WrittenBody, Bare, Plan.Lines, Plan.Is;
    if plan.Holds(p) { OneLine(ls, i, p, todo, rest); }
  }

  lemma StepElse(ls: seq<Line>, start: nat, i: nat, bad: bool, first: Option<seq<Command>>, q: seq<Command>,
                 plan: Plan, todo: Plan, rest: seq<Line>)
    requires i < |ls| && Reading(ls, start, i, bad, InIf, first, q, plan, todo, rest) && ls[i].ElseLine?
    ensures Reading(ls, start, i + 1, bad || first != None, InIf, Some(q), [], plan, Plan(true, None, todo.body), rest)
  {
    hide Written, WrittenBody, Bare, Plan.Lines, Plan.Is;
    BareSnoc(ls, start, i);
    AtElse(q);
    if plan.Holds(InIf) {
      OneLine(ls, i, InIf, todo, rest);
      IsElse(plan, first, q, todo);
    }
  }

  lemma StepClose(ls: seq<Line>, start: nat, i: nat, bad: bool, p: Place,
                    first: Option<seq<Command>>, q: seq<Command>,
                  plan: Plan, todo: Plan, rest: seq<Line>)
    requires i < |ls| && Reading(ls, start, i, bad, p, first, q, plan, todo, rest) && p != File && [ls[i]] == Closing(p)
    ensures Finished(ls, start, i + 1, bad, p, first, q, plan, rest)
  {
    hide Written, WrittenBody, Bare, Plan.Lines, Plan.Is;
    BareSnoc(ls, start, i);
    if plan.Holds(p) {
      OneLine(ls, i, p, todo, rest);
      IsDone(plan, first, q, todo);
    }
  }

  // The plan for the body of a command, and what is to follow it.
  ghost function InnerPlan(p: Place, plan: Plan, todo: Plan): Plan {
    if plan.Holds(p) then todo.Inner() else Plan(false, None, [])
  }

  ghost function InnerRest(p: Place, todo: Plan, rest: seq<Line>): seq<Line> {
    todo.Tail().Lines() + Closing(p) + rest
  }

  lemma StepInto(ls: seq<Line>, start: nat, i: nat, bad: bool, p: Place,
                    first: Option<seq<Command>>, q: seq<Command>,
                 plan: Plan, todo: Plan, rest: seq<Line>, inside: Place)
    requires i < |ls| && Reading(ls, start, i, bad, p, first, q, plan, todo, rest)
    requires (ls[i].IfLine? && inside == InIf) || (ls[i].LoopLine? && inside == InLoop)
    ensures Ahead(ls, i + 1, inside, InnerPlan(p, plan, todo), InnerRest(p, todo, rest))
  {
    hide Written, WrittenBody, Bare, Plan.Lines, Plan.Is;
    if plan.Holds(p) { OneLine(ls, i, p, todo, rest); }
  }

  // A command with a body that has been read.
  lemma StepOver(ls: seq<Line>, start: nat, i: nat, j: nat, bad: bool, p: Place,
                    first: Option<seq<Command>>, q: seq<Command>,
                 plan: Plan, todo: Plan, rest: seq<Line>, inside: Place, bad': bool,
                 v: Option<seq<Command>>, u: seq<Command>, c: Command)
    requires i < |ls| && Reading(ls, start, i, bad, p, first, q, plan, todo, rest)
    requires Finished(ls, i + 1, j, bad', inside, v, u, InnerPlan(p, plan, todo), InnerRest(p, todo, rest))
    requires (ls[i].IfLine? && inside == InIf
              && c == if v == None then Cond(ls[i].control, u, NoElse) else Cond(ls[i].control, v.value, Else(u)))
             || (ls[i].LoopLine? && inside == InLoop && c == Loop(ls[i].control, u))
    ensures Reading(ls, start, j, bad || bad', p, first, q + [c], plan, todo.Tail(), rest)
  {
    hide Written, WrittenBody, WrittenOne, Bare, Plan.Lines, Plan.Is;
    BareSnoc(ls, start, i);
    ReadOne(ls, start, i, j, [ls[i]], WrittenBody(v, u), Closing(inside), !bad');
    if inside == InIf { WrittenCond(ls[i].control, v, u); } else { WrittenLoop(ls[i].control, u); }
    WrittenMore(first, q, c);
    if plan.Holds(p) {
      OneLine(ls, i, p, todo, rest);
      IsNext(plan, first, q, todo);
    }
  }

  lemma WrittenMore(first: Option<seq<Command>>, q: seq<Command>, c: Command)
    ensures WrittenBody(first, q + [c]) == WrittenBody(first, q) + WrittenOne(c)
  {
    WrittenSnoc(q, c);
    if first.Some? {
      assert Written(first.value) + [ElseLine] + (Written(q) + WrittenOne(c))
          == Written(first.value) + [ElseLine] + Written(q) + WrittenOne(c);
    }
  }

  class Reader {
    var lines: seq<Line>
    var next: nat
    var errors: nat

    constructor (ls: seq<Line>)
      ensures lines == ls && next == 0 && errors == 0
    {
      lines, next, errors := ls, 0, 0;
    }

    // Read the commands up to the line that closes the body.  Without an error
    // these lines are, comments apart, exactly the commands as they are written;
    // and commands as they are written are read without an error.
    method ReadTemplate(p: Place, ghost plan: Plan, ghost rest: seq<Line>)
      returns (first: Option<seq<Command>>, q: seq<Command>)
      requires next <= |lines| && Ahead(lines, next, p, plan, rest)
      modifies this`next, this`errors
      ensures old(next) <= next <= |lines| && errors >= old(errors) && (p == File ==> next == |lines|)
      ensures Finished(lines, old(next), next, errors > old(errors), p, first, q, plan, rest)
      decreases |lines| - next
    {
      hide Reading, Finished, Ahead, Bare, WrittenOne, Plan.Tail;
      first, q := None, [];
      ghost var start, todo, ls := next, plan, lines;
      Started(ls, start, p, plan, rest);
      while next < |lines|
        invariant start <= next <= |lines| && errors >= old(errors)
        invariant Reading(ls, start, next, errors > old(errors), p, first, q, plan, todo, rest)
      {
        ghost var i, bad := next, errors > old(errors);
        var line := lines[next];
        next := next + 1;
        match line {
          case Plain(text) =>
            WrittenLine(Simple(text));
            StepSimple(ls, start, i, bad, p, first, q, plan, todo, rest, Simple(text));
            q, todo := q + [Simple(text)], todo.Tail();
          case UseLine(sort, cons) =>
            WrittenLine(Use(sort, cons));
            StepSimple(ls, start, i, bad, p, first, q, plan, todo, rest, Use(sort, cons));
            q, todo := q + [Use(sort, cons)], todo.Tail();
          case SpecialLine(sort, cons) =>
            WrittenLine(Special(sort, cons));
            StepSimple(ls, start, i, bad, p, first, q, plan, todo, rest, Special(sort, cons));
            q, todo := q + [Special(sort, cons)], todo.Tail();
          case CommentLine =>
            StepComment(ls, start, i, bad, p, first, q, plan, todo, rest);
          case IfLine(control) =>
            ghost var before := errors;
            StepInto(ls, start, i, bad, p, first, q, plan, todo, rest, InIf);
            var v, u := ReadTemplate(InIf, InnerPlan(p, plan, todo), InnerRest(p, todo, rest));
            var c := if v == None then Cond(control, u, NoElse) else Cond(control, v.value, Else(u));
            StepOver(ls, start, i, next, bad, p, first, q, plan, todo, rest, InIf, errors > before, v, u, c);
            q, todo := q + [c], todo.Tail();
          case LoopLine(control) =>
            ghost var before := errors;
            StepInto(ls, start, i, bad, p, first, q, plan, todo, rest, InLoop);
            var v, u := ReadTemplate(InLoop, InnerPlan(p, plan, todo), InnerRest(p, todo, rest));
            StepOver(ls, start, i, next, bad, p, first, q, plan, todo, rest, InLoop, errors > before, v, u,
                     Loop(control, u));
            q, todo := q + [Loop(control, u)], todo.Tail();
          case ElseLine =>
            if p == InIf {
              StepElse(ls, start, i, bad, first, q, plan, todo, rest);
              if first != None { errors := errors + 1; }
              first, q := Some(q), [];
              todo := Plan(true, None, todo.body);
            } else {
              StepBad(ls, start, i, bad, p, first, q, plan, todo, rest);
              errors := errors + 1;
            }
          case EndifLine =>
            if p == InIf {
              StepClose(ls, start, i, bad, p, first, q, plan, todo, rest);
              return;
            }
            StepBad(ls, start, i, bad, p, first, q, plan, todo, rest);
            errors := errors + 1;
          case EndLine =>
            if p == InLoop {
              StepClose(ls, start, i, bad, p, first, q, plan, todo, rest);
              return;
            }
            StepBad(ls, start, i, bad, p, first, q, plan, todo, rest);
            errors := errors + 1;
          case UnknownLine(_) =>
            StepBad(ls, start, i, bad, p, first, q, plan, todo, rest);
            errors := errors + 1;
        }
      }
      // No line is left.
      EndOfFile(ls, start, errors > old(errors), p, first, q, plan, todo, rest);
      if p != File { errors := errors + 1; }
    }

    // A whole file.
    method ReadFile(ghost cs: seq<Command>) returns (q: seq<Command>)
      requires next == 0 && errors == 0
      modifies this`next, this`errors
      ensures errors == 0 ==> Bare(lines) == Written(q)
      ensures Bare(lines) == Written(cs) ==> errors == 0 && q == cs
    {
      hide Bare, Written;
      ghost var plan := Plan(Bare(lines) == Written(cs), None, cs);
      assert lines[0..] == lines && Written(cs) + [] + [] == Written(cs);
      var first;
      first, q := ReadTemplate(File, plan, []);
      assert lines[0..next] == lines;
      ConcatNone(Written(q));
    }
  }

  lemma NoLines(ls: seq<Line>, start: nat)
    requires start <= |ls|
    ensures Bare(ls[start..start]) == WrittenBody(None, [])
  {
  }

  lemma ConcatNone(ls: seq<Line>)
    ensures ls + [] == ls
  {
  }

  lemma WrittenLine(c: Command)
    ensures c.Simple? ==> WrittenOne(c) == [Plain(c.text)]
    ensures c.Use? ==> WrittenOne(c) == [UseLine(c.sort, c.cons)]
    ensures c.Special? ==> WrittenOne(c) == [SpecialLine(c.sort, c.cons)]
  {
  }

  lemma WrittenCond(control: string, v: Option<seq<Command>>, u: seq<Command>)
    ensures var c := if v == None then Cond(control, u, NoElse) else Cond(control, v.value, Else(u));
            WrittenOne(c) == [IfLine(control)] + WrittenBody(v, u) + [EndifLine]
  {
    match v
    case None => assert Written(u) + [] == Written(u);
    case Some(yes) => assert [IfLine(control)] + Written(yes) + ([ElseLine] + Written(u))
                          == [IfLine(control)] + (Written(yes) + [ElseLine] + Written(u));
  }

  lemma WrittenLoop(control: string, u: seq<Command>)
    ensures WrittenOne(Loop(control, u)) == [LoopLine(control)] + WrittenBody(None, u) + [EndLine]
  {
  }

  lemma AtElse(q: seq<Command>)
    ensures WrittenBody(Some(q), []) == WrittenBody(None, q) + [ElseLine]
  {
    assert Written(q) + [ElseLine] + [] == Written(q) + [ElseLine];
  }

  lemma ReadOne(ls: seq<Line>, start: nat, here: nat, end: nat, a: seq<Line>, b: seq<Line>, c: seq<Line>, ok: bool)
    requires start <= here < end <= |ls|
    requires Bare(ls[start..here + 1]) == Bare(ls[start..here]) + a
    requires ok ==> Bare(ls[here + 1..end]) == b + c
    ensures ok ==> Bare(ls[start..end]) == Bare(ls[start..here]) + (a + b + c)
  {
    assert ls[start..end] == ls[start..here + 1] + ls[here + 1..end];
    BareConcat(ls[start..here + 1], ls[here + 1..end]);
  }
}
