// Writing a file by a template: output_template in make_tdf/src/output.c.
module TemplateOutput {
  import opened Templates

  // What the format characters of a template refer to.
  datatype Scope = Scope(sort: Option<nat>, cons: Option<nat>, param: Option<nat>, paramNo: int, lastParamNo: int)

  // What has been written, what use commands have marked, the errors reported.
  datatype State<M> = State(text: string, marks: M, errors: nat)

  // The specification being written.  A format string may take back what was
  // written before it, so it acts on the whole text.
  datatype Spec<!M> = Spec(
    sorts: seq<nat>,
    shown: (M, nat) -> bool,
    conses: nat -> seq<nat>,
    pars: nat -> seq<nat>,
    format: (string, Scope, string) -> string,
    test: (string, Scope, M) -> bool,
    use: (M, Command) -> M)

  // ----- what a template means in a scope

  function Meaning<M>(spec: Spec<M>, c: Command, e: Scope, s: State<M>): State<M>
    decreases c, 0
  {
    match c
    case Simple(text) => s.(text := spec.format(text, e, s.text))
    case Use(_, _) => s.(marks := spec.use(s.marks, c))
    case Special(_, _) => s.(marks := spec.use(s.marks, c))
    case Cond(control, yes, no) =>
      if spec.test(control, e, s.marks) then MeaningAll(spec, yes, e, s)
      else if no.Else? then MeaningAll(spec, no.cmds, e, s)
      else s
    case Loop(control, body) =>
      if control == "sort" then OverSorts(spec, body, 0, e, s)
      else if control == "sort.cons" then
        if e.sort.None? then s else OverConses(spec, body, spec.conses(e.sort.value), 0, e, s)
      else if control == "cons.param" then
        if e.cons.None? then s
        else var ps := spec.pars(e.cons.value); OverParams(spec, body, ps, |ps|, |ps| - 1, 0, e, s)
      else if control == "param.prev" then
        if e.cons.None? then s
        else OverParams(spec, body, spec.pars(e.cons.value), e.paramNo, e.paramNo - 1, 0, e, s)
      else s.(errors := s.errors + 1)
  }

  function MeaningAll<M>(spec: Spec<M>, cs: seq<Command>, e: Scope, s: State<M>): State<M>
    decreases cs, 0
  {
    if cs == [] then s else MeaningAll(spec, cs[1..], e, Meaning(spec, cs[0], e, s))
  }

  // The body for every sort from the i-th on that is shown when its turn comes.
  function OverSorts<M>(spec: Spec<M>, body: seq<Command>, i: nat, e: Scope, s: State<M>): State<M>
    requires i <= |spec.sorts|
    decreases body, 1, |spec.sorts| - i
  {
    if i == |spec.sorts| then s
    else if !spec.shown(s.marks, spec.sorts[i]) then OverSorts(spec, body, i + 1, e, s)
    else OverSorts(spec, body, i + 1, e, MeaningAll(spec, body, e.(sort := Some(spec.sorts[i])), s))
  }

  function OverConses<M>(spec: Spec<M>, body: seq<Command>, cs: seq<nat>, i: nat, e: Scope, s: State<M>): State<M>
    requires i <= |cs|
    decreases body, 1, |cs| - i
  {
    if i == |cs| then s
    else OverConses(spec, body, cs, i + 1, e, MeaningAll(spec, body, e.(cons := Some(cs[i])), s))
  }

  // The body for the parameters from the i-th on, up to most of them.
  function OverParams<M>(spec: Spec<M>, body: seq<Command>, ps: seq<nat>, most: int, last: int, i: nat,
                         e: Scope, s: State<M>): State<M>
    requires i <= |ps|
    decreases body, 1, |ps| - i
  {
    if i == |ps| || i >= most then s
    else
      var inside := e.(param := Some(ps[i]), paramNo := i, lastParamNo := last);
      OverParams(spec, body, ps, most, last, i + 1, e, MeaningAll(spec, body, inside, s))
  }

  // ----- the writer, with the scope in global variables

  class Writer<!M> {
    const spec: Spec<M>
    var crt: Scope
    var marks: M
    var text: string
    var errors: nat

    constructor (s: Spec<M>, m: M)
      ensures spec == s && crt == Scope(None, None, None, 0, 0) && marks == m && text == "" && errors == 0
    {
      spec, crt, marks, text, errors := s, Scope(None, None, None, 0, 0), m, "", 0;
    }

    ghost function Now(): State<M>
      reads this
    {
      State(text, marks, errors)
    }

    // Write what a command stands for.  The variables are as before at the end.
    method OutputTemplate(c: Command)
      modifies this
      ensures crt == old(crt)
      ensures Now() == Meaning(spec, c, old(crt), old(Now()))
      decreases c, 0
    {
      match c {
        case Simple(s) =>
          text := spec.format(s, crt, text);
        case Use(_, _) | Special(_, _) =>
          marks := spec.use(marks, c);
        case Cond(control, yes, no) =>
          if spec.test(control, crt, marks) {
            OutputAll(yes);
          } else if no.Else? {
            OutputAll(no.cmds);
          }
        case Loop(control, body) =>
          if control == "sort" {
            LoopSorts(body);
          } else if control == "sort.cons" {
            LoopConses(body);
          } else if control == "cons.param" {
            LoopParams(body, false);
          } else if control == "param.prev" {
            LoopParams(body, true);
          } else {
            errors := errors + 1;
          }
      }
    }

    method OutputAll(cs: seq<Command>)
      modifies this
      ensures crt == old(crt)
      ensures Now() == MeaningAll(spec, cs, old(crt), old(Now()))
      decreases cs, 0
    {
      var p := 0;
      ghost var e, whole := crt, MeaningAll(spec, cs, crt, Now());
      assert cs[0..] == cs;
      while p < |cs|
        invariant p <= |cs| && crt == e
        invariant MeaningAll(spec, cs[p..], e, Now()) == whole
      {
        assert cs[p..][0] == cs[p] && cs[p..][1..] == cs[p + 1..];
        OutputTemplate(cs[p]);
        p := p + 1;
      }
    }

    method LoopSorts(body: seq<Command>)
      modifies this
      ensures crt == old(crt)
      ensures Now() == OverSorts(spec, body, 0, old(crt), old(Now()))
      decreases body, 1
    {
      var ls := crt.sort;
      ghost var e, whole := crt, OverSorts(spec, body, 0, crt, Now());
      var ps := 0;
      while ps < |spec.sorts|
        invariant ps <= |spec.sorts| && crt.(sort := ls) == e
        invariant OverSorts(spec, body, ps, e, Now()) == whole
      {
        if spec.shown(marks, spec.sorts[ps]) {
          crt := crt.(sort := Some(spec.sorts[ps]));
          assert crt == e.(sort := Some(spec.sorts[ps]));
          OutputAll(body);
        }
        ps := ps + 1;
      }
      crt := crt.(sort := ls);
    }

    method LoopConses(body: seq<Command>)
      modifies this
      ensures crt == old(crt)
      ensures Now() == Meaning(spec, Loop("sort.cons", body), old(crt), old(Now()))
      decreases body, 1
    {
      var lc := crt.cons;
      if crt.sort.Some? {
        var cs := spec.conses(crt.sort.value);
        ghost var e, whole := crt, OverConses(spec, body, cs, 0, crt, Now());
        var pc := 0;
        while pc < |cs|
          invariant pc <= |cs| && crt.(cons := lc) == e
          invariant OverConses(spec, body, cs, pc, e, Now()) == whole
        {
          crt := crt.(cons := Some(cs[pc]));
          assert crt == e.(cons := Some(cs[pc]));
          OutputAll(body);
          pc := pc + 1;
        }
      }
      crt := crt.(cons := lc);
    }

    // Loop over all parameters, or over those before the current one.
    method LoopParams(body: seq<Command>, prev: bool)
      modifies this
      ensures crt == old(crt)
      ensures Now() ==
              Meaning(spec, Loop(if prev then "param.prev" else "cons.param", body), old(crt), old(Now()))
      decreases body, 1
    {
      var np, mp, lp := crt.paramNo, crt.lastParamNo, crt.param;
      if crt.cons.Some? {
        var ps := spec.pars(crt.cons.value);
        var most, last := if prev then np else |ps|, if prev then np - 1 else |ps| - 1;
        ghost var e, whole := crt, OverParams(spec, body, ps, most, last, 0, crt, Now());
        crt := crt.(paramNo := 0, lastParamNo := last);
        var pp := 0;
        while pp < |ps| && crt.paramNo < most
          invariant pp <= |ps| && crt.paramNo == pp && crt.lastParamNo == last
          invariant crt.(paramNo := np, lastParamNo := mp, param := lp) == e
          invariant OverParams(spec, body, ps, most, last, pp, e, Now()) == whole
        {
          crt := crt.(param := Some(ps[pp]));
          assert crt == e.(param := Some(ps[pp]), paramNo := pp, lastParamNo := last);
          OutputAll(body);
          crt := crt.(paramNo := crt.paramNo + 1);
          pp := pp + 1;
        }
      }
      crt := crt.(lastParamNo := mp, paramNo := np, param := lp);
    }
  }
}
