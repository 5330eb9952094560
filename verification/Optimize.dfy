/** The optimizer, which removes comments, keeps the meaning of code. */
module Optimize {
  import opened Words
  import opened Wasm
  import opened Translate

  /** The code without its comments. */
  function Strip(code: Code): (r: Code)
    ensures |r| <= |code|
  {
    if code == [] then [] else (if code[0].Comment? then [] else [code[0]]) + Strip(code[1..])
  }

  lemma {:induction false} StripSkip(code: Code, depth: nat)
    ensures SkipOut(Strip(code), depth) == Strip(SkipOut(code, depth))
    decreases |code|
  {
    if code != [] {
      var c, rest := code[0], code[1..];
      if c.Comment? {
        assert Strip(code) == Strip(rest);
        StripSkip(rest, depth);
      } else {
        assert Strip(code)[1..] == Strip(rest);
        if c.Block? || c.If? || c.Loop? {
          StripSkip(rest, depth + 1);
        } else if !c.End? {
          StripSkip(rest, depth);
        } else if depth > 0 {
          StripSkip(rest, depth - 1);
        }
      }
    }
  }

  lemma {:induction false} StripJump(env: Env, rest: Code, st: State, l: nat)
    ensures Jump(env, Strip(rest), st, l) == Jump(env, rest, st, l)
    decreases |rest|, 1
  {
    if l < |st.labels| {
      var keep := |st.labels| - 1 - l;
      StripSkip(rest, l);
      StripExec(env, SkipOut(rest, l), st.(stack := Unwind(st.stack, st.labels[keep]), labels := st.labels[..keep]));
    }
  }

  /** Any code means the same without its comments, wherever it branches. */
  lemma {:induction false} StripExec(env: Env, code: Code, st: State)
    ensures Exec(env, Strip(code), st) == Exec(env, code, st)
    decreases |code|, 0
  {
    if code != [] {
      var c, rest := code[0], code[1..];
      if c.Comment? {
        assert Strip(code) == Strip(rest);
        StripExec(env, rest, st);
      } else {
        assert Strip(code)[0] == c && Strip(code)[1..] == Strip(rest);
        if Straight(c) {
          match Step(c, st)
          case None =>
          case Some(st1) => StripExec(env, rest, st1);
        } else {
          StripControl(env, code, st);
        }
      }
    }
  }

  /** A control instruction comes first. */
  lemma {:induction false} StripControl(env: Env, code: Code, st: State)
    requires code != [] && !Straight(code[0]) && Strip(code) != [] && Strip(code)[0] == code[0]
             && Strip(code)[1..] == Strip(code[1..])
    ensures Exec(env, Strip(code), st) == Exec(env, code, st)
    decreases |code[1..]|, 2
  {
    var rest := code[1..];
    match code[0]
    case Block => StripExec(env, rest, st.(labels := st.labels + [Height(st.stack)]));
    case End => if st.labels != [] { StripExec(env, rest, st.(labels := st.labels[..|st.labels| - 1])); }
    case If =>
      if st.stack.Push? && st.stack.top.I32? {
        var st1 := st.(stack := st.stack.rest);
        if st.stack.top.v != 0 {
          StripExec(env, rest, st1.(labels := st.labels + [Height(st1.stack)]));
        } else {
          StripSkip(rest, 0);
          StripExec(env, SkipOut(rest, 0), st1);
        }
      }
    case Br(l) => StripJump(env, rest, st, l);
    case BrIf(l) =>
      if st.stack.Push? {
        StripJump(env, rest, st.(stack := st.stack.rest), l);
        StripExec(env, rest, st.(stack := st.stack.rest));
      }
    case BrTable(ls, d) =>
      if st.stack.Push? && st.stack.top.I32? {
        StripJump(env, rest, st.(stack := st.stack.rest), if st.stack.top.v < |ls| then ls[st.stack.top.v] else d);
      }
    case CallIndirect =>
      if st.stack.Push? && st.stack.rest.Push? && st.stack.top.I32? && st.stack.rest.top.I32? && env.Top?
         && st.stack.top.v < |env.table| {
        var o := Exec(Leaf, env.table[st.stack.top.v], Frame(st.stack.rest.top.v, st.mem));
        if o.Returned? { StripExec(env, rest, st.(stack := Push(o.value, st.stack.rest.rest), mem := o.mem)); }
      }
    case Call(_) =>
      if st.stack.Push? && st.stack.rest.Push? && st.stack.top.I32? && st.stack.rest.top.I32? && env.Top? {
        var (v, mem') := (env.syscall)(st.mem, st.stack.rest.top.v, st.stack.top.v);
        StripExec(env, rest, st.(stack := Push(I32(v), st.stack.rest.rest), mem := mem'));
      }
    case _ =>
  }

  lemma {:induction false} StripAppend(a: Code, b: Code)
    ensures Strip(a + b) == Strip(a) + Strip(b)
    decreases |a|
  {
    if a == [] {
      assert a + b == b;
    } else {
      assert (a + b)[1..] == a[1..] + b;
      StripAppend(a[1..], b);
    }
  }

  /** optimize_function: keeps every instruction that is not a comment. */
  method OptimizeFunction(body: Code) returns (kept: Code)
    ensures kept == Strip(body)
  {
    kept := [];
    for k := 0 to |body|
      invariant kept == Strip(body[..k])
    {
      assert body[..k + 1] == body[..k] + [body[k]];
      StripAppend(body[..k], [body[k]]);
      assert [body[k]][1..] == [];
      if !body[k].Comment? { kept := kept + [body[k]]; }
    }
    assert body[..|body|] == body;
  }
}
