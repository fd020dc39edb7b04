/** Building the command to run from the user's command line and the
    `name=value` environment overrides (src/exec.rs, `env_var_to_tuple` and
    `CancelableProcess::create_command`).

    A `Command` is what the operating system is later asked to start: a
    program, its arguments in order, and the environment entries set on top
    of the inherited environment. Standard output and error are inherited
    and are not part of the model.
 */
module CommandLine {
  import opened Wrappers
  import opened Split

  datatype Command = Command(program: string, args: seq<string>, env: map<string, string>)

  /** Splits an environment override at its `'='` characters: the name is
      the text before the first `'='` (the whole string when there is
      none) and the value is the text between the first and the second
      `'='` (empty when there is no `'='`). Text after a second `'='` is
      dropped. */
  function EnvVarToTuple(v: string): (r: (string, string))
    ensures '=' !in r.0 && '=' !in r.1
    ensures '=' !in v ==> r == (v, "")
    ensures '=' in v ==>
      && |r.0| < |v| && v[..|r.0|] == r.0 && v[|r.0|] == '='
      && var rest := v[|r.0| + 1..];
         |r.1| <= |rest| && rest[..|r.1|] == r.1 && (|r.1| == |rest| || rest[|r.1|] == '=')
  {
    var ps := SplitOn(v, '=');
    JoinHead(ps, '=');
    if |ps| >= 2 then
      JoinHead(ps[1..], '=');
      assert ps[1..][0] == ps[1];
      (ps[0], ps[1])
    else if |ps| == 1 then
      (ps[0], "")
    else
      // The implementation's fallback for a split with no first piece;
      // a split always yields at least one piece.
      ("", "")
  }

  /** A plain `name=value` pair splits into its two halves. */
  lemma EnvVarPair(name: string, value: string)
    requires '=' !in name && '=' !in value
    ensures EnvVarToTuple(name + "=" + value) == (name, value)
  {
    SplitOnFree(name, '=');
    SplitOnFree(value, '=');
    SplitOnSeparator(name, value, '=');
    assert name + "=" + value == name + ['='] + value;
  }

  /** Only the text up to the second `'='` becomes the value:
      `"a=b=c"` gives `("a", "b")`. */
  lemma EnvVarValueStopsAtSecondEquals(name: string, value: string, tail: string)
    requires '=' !in name && '=' !in value
    ensures EnvVarToTuple(name + "=" + value + "=" + tail) == (name, value)
  {
    var rest := value + ['='] + tail;
    assert name + "=" + value + "=" + tail == name + ['='] + rest;
    SplitOnFree(name, '=');
    SplitOnFree(value, '=');
    SplitOnSeparator(value, tail, '=');
    assert SplitOn(rest, '=') == [value] + SplitOn(tail, '=');
    SplitOnSeparator(name, rest, '=');
    assert SplitOn(name + ['='] + rest, '=') == [name, value] + SplitOn(tail, '=');
  }

  /** True iff a later pair of `pairs` sets the same name as `pairs[i]`. */
  predicate OverriddenLater(pairs: seq<(string, string)>, i: int)
    requires 0 <= i < |pairs|
  {
    exists j :: i < j < |pairs| && pairs[j].0 == pairs[i].0
  }

  /** The environment that setting `pairs` one after another produces: a
      later pair for the same name replaces an earlier one. */
  function LastWins(pairs: seq<(string, string)>): (m: map<string, string>)
    ensures forall i :: 0 <= i < |pairs| ==> pairs[i].0 in m
    ensures forall k :: k in m ==> exists i :: 0 <= i < |pairs| && pairs[i].0 == k
    ensures forall i :: 0 <= i < |pairs| && !OverriddenLater(pairs, i) ==> m[pairs[i].0] == pairs[i].1
  {
    if |pairs| == 0 then map[]
    else
      var init := pairs[..|pairs| - 1];
      var last := pairs[|pairs| - 1];
      var m := LastWins(init);
      var m' := m[last.0 := last.1];
      assert init + [last] == pairs;
      SnocSetsAll(init, last, pairs, m, m');
      SnocSetsOnly(init, last, pairs, m, m');
      SnocLastValues(init, last, pairs, m, m');
      m'
  }

  // The three steps of `LastWins`: when `m` is the environment `init`
  // produces, `m'`, which also sets `last`, is the environment of `pairs`.

  lemma SnocSetsAll(init: seq<(string, string)>, last: (string, string), pairs: seq<(string, string)>,
                    m: map<string, string>, m': map<string, string>)
    requires pairs == init + [last] && m' == m[last.0 := last.1]
    requires forall i :: 0 <= i < |init| ==> init[i].0 in m
    ensures forall i :: 0 <= i < |pairs| ==> pairs[i].0 in m'
  {
    forall i | 0 <= i < |pairs| ensures pairs[i].0 in m' {
      if i < |init| {
        assert pairs[i] == init[i];
      }
    }
  }

  lemma SnocSetsOnly(init: seq<(string, string)>, last: (string, string), pairs: seq<(string, string)>,
                     m: map<string, string>, m': map<string, string>)
    requires pairs == init + [last] && m' == m[last.0 := last.1]
    requires forall k :: k in m ==> exists i :: 0 <= i < |init| && init[i].0 == k
    ensures forall k :: k in m' ==> exists i :: 0 <= i < |pairs| && pairs[i].0 == k
  {
    forall k | k in m' ensures exists i :: 0 <= i < |pairs| && pairs[i].0 == k {
      if k == last.0 {
        assert pairs[|init|] == last;
      } else {
        var i :| 0 <= i < |init| && init[i].0 == k;
        assert pairs[i] == init[i];
      }
    }
  }

  lemma SnocLastValues(init: seq<(string, string)>, last: (string, string), pairs: seq<(string, string)>,
                       m: map<string, string>, m': map<string, string>)
    requires pairs == init + [last] && m' == m[last.0 := last.1]
    requires forall i :: 0 <= i < |init| ==> init[i].0 in m
    requires forall i :: 0 <= i < |init| && !OverriddenLater(init, i) ==> m[init[i].0] == init[i].1
    ensures forall i :: 0 <= i < |pairs| && !OverriddenLater(pairs, i) ==> m'[pairs[i].0] == pairs[i].1
  {
    forall i | 0 <= i < |pairs| && !OverriddenLater(pairs, i)
      ensures m'[pairs[i].0] == pairs[i].1
    {
      if i < |init| {
        assert pairs[i] == init[i];
        assert pairs[|init|] == last;
        assert pairs[i].0 != last.0;
        assert !OverriddenLater(init, i) by {
          forall j | i < j < |init| ensures init[j].0 != init[i].0 {
            assert pairs[j] == init[j];
          }
        }
      }
    }
  }

  /** Each override split into its name and value, in order. */
  function EnvPairs(vars: seq<string>): (pairs: seq<(string, string)>)
    ensures |pairs| == |vars|
    ensures forall i :: 0 <= i < |vars| ==> pairs[i] == EnvVarToTuple(vars[i])
  {
    seq(|vars|, i requires 0 <= i < |vars| => EnvVarToTuple(vars[i]))
  }

  /** The environment entries a process is started with; `None` sets nothing. */
  function Overrides(env: Option<seq<string>>): map<string, string>
  {
    match env
    case None => map[]
    case Some(vars) => LastWins(EnvPairs(vars))
  }

  /** Builds the command for a command line. Fails exactly when the line has
      no word; otherwise the program is the first space-separated word and
      the arguments are the remaining words in order. */
  function CreateCommand(cmd: string, env: Option<seq<string>>): (r: Result<Command>)
    ensures r.Err? <==> !HasWord(cmd)
    ensures r.Ok? ==> [r.value.program] + r.value.args == Tokens(cmd)
    ensures r.Ok? ==> r.value.program != "" && ' ' !in r.value.program
    ensures r.Ok? ==> r.value.env == Overrides(env)
  {
    var args := Tokens(cmd);
    TokensEmptyIff(cmd);
    TokensAreWords(cmd);
    if |args| < 1 then Err
    else
      assert [args[0]] + args[1..] == args;
      Ok(Command(args[0], args[1..], Overrides(env)))
  }

  /** Round trip: writing a program and its arguments as one line, separated
      by single spaces, and building the command from that line gives back
      the same program and arguments. */
  lemma CreateCommandRoundTrip(program: string, args: seq<string>, env: Option<seq<string>>)
    requires AllWords([program] + args)
    ensures CreateCommand(Join([program] + args, ' '), env) == Ok(Command(program, args, Overrides(env)))
  {
    var ws := [program] + args;
    TokensOfJoin(ws);
    var r := CreateCommand(Join(ws, ' '), env);
    assert Tokens(Join(ws, ' ')) != [];
    TokensEmptyIff(Join(ws, ' '));
    assert [r.value.program] + r.value.args == ws;
    assert r.value.program == ws[0];
    assert r.value.args == ([r.value.program] + r.value.args)[1..];
  }
}
