/**
 The flags of the server's command line: how extra arguments replace generated ones.

 Models flagName, withoutOverridden and the end of staticArgs in
 internal/controller/entrypoint.go, and the order of the command line in entrypointScript.
 */
module Flags {
  import opened Options
  import opened Shell

  // ---------- tokens ----------

  predicate IsFlag(token: string) {
    "--" <= token
  }

  /** strings.Cut at the first equals sign, keeping what is before it. */
  function UpToEquals(token: string): string {
    if token == "" || token[0] == '=' then "" else [token[0]] + UpToEquals(token[1..])
  }

  function FlagName(token: string): Option<string> {
    if IsFlag(token) then Some(UpToEquals(token)) else None
  }

  /** The option names a list of tokens sets, in either spelling. */
  function NamesSet(tokens: seq<string>): (names: set<string>)
    ensures forall n :: n in names <==> exists k :: 0 <= k < |tokens| && FlagName(tokens[k]) == Some(n)
  {
    if tokens == [] then {}
    else
      var last := tokens[|tokens| - 1];
      NamesSet(tokens[..|tokens| - 1]) + if IsFlag(last) then {UpToEquals(last)} else {}
  }

  // ---------- dropping overridden flags ----------

  /** What the loop keeps of the tokens, given whether it is skipping when it reaches them. */
  function KeptFrom(tokens: seq<string>, overridden: set<string>, skipping: bool): seq<string> {
    if tokens == [] then []
    else
      var skip := if IsFlag(tokens[0]) then UpToEquals(tokens[0]) in overridden else skipping;
      (if skip then [] else [tokens[0]]) + KeptFrom(tokens[1..], overridden, skip)
  }

  method CollectNames(extra: seq<string>) returns (overridden: set<string>)
    ensures overridden == NamesSet(extra)
  {
    overridden := {};
    for i := 0 to |extra|
      invariant overridden == NamesSet(extra[..i])
    {
      assert extra[..i + 1][..i] == extra[..i];
      if IsFlag(extra[i]) {
        overridden := overridden + {UpToEquals(extra[i])};
      }
    }
    assert extra[..|extra|] == extra;
  }

  /** One turn of the loop: what is out so far, followed by what the rest yields, does not change. */
  lemma KeptStep(out: seq<string>, tokens: seq<string>, i: nat, overridden: set<string>, skipping: bool)
    requires i < |tokens|
    ensures var skip := if IsFlag(tokens[i]) then UpToEquals(tokens[i]) in overridden else skipping;
            out + KeptFrom(tokens[i..], overridden, skipping)
            == (if skip then out else out + [tokens[i]]) + KeptFrom(tokens[i + 1..], overridden, skip)
  {
  }

  method WithoutOverridden(generated: seq<string>, extra: seq<string>) returns (out: seq<string>)
    ensures out == KeptFrom(generated, NamesSet(extra), false)
  {
    var overridden := CollectNames(extra);
    if overridden == {} {
      NothingOverridden(generated);
      return generated;
    }
    out := [];
    var skipping := false;
    for i := 0 to |generated|
      invariant out + KeptFrom(generated[i..], overridden, skipping) == KeptFrom(generated, overridden, false)
    {
      KeptStep(out, generated, i, overridden, skipping);
      if IsFlag(generated[i]) {
        skipping := UpToEquals(generated[i]) in overridden;
      }
      if !skipping {
        out := out + [generated[i]];
      }
    }
  }

  lemma {:induction false} NothingOverridden(tokens: seq<string>)
    ensures KeptFrom(tokens, {}, false) == tokens
  {
    if tokens != [] {
      NothingOverridden(tokens[1..]);
    }
  }

  // ---------- options ----------

  /** One option as the server's parser groups it: the flag token and the values after it. */
  datatype Opt = Opt(flag: string, values: seq<string>)

  predicate IsOpt(o: Opt) {
    IsFlag(o.flag) && forall k :: 0 <= k < |o.values| ==> !IsFlag(o.values[k])
  }

  predicate AreOpts(os: seq<Opt>) {
    forall k :: 0 <= k < |os| ==> IsOpt(os[k])
  }

  function Name(o: Opt): string {
    UpToEquals(o.flag)
  }

  function Tokens(os: seq<Opt>): seq<string> {
    if os == [] then [] else [os[0].flag] + os[0].values + Tokens(os[1..])
  }

  /** The list is empty or begins with a flag, so no value stands alone at its front. */
  predicate BeginsWithFlag(tokens: seq<string>) {
    tokens == [] || IsFlag(tokens[0])
  }

  /** The options the rest of the tokens make after an open one: a flag opens the next, a value joins. */
  function Group(open: Opt, tokens: seq<string>): (os: seq<Opt>)
    decreases tokens
  {
    if tokens == [] then [open]
    else if IsFlag(tokens[0]) then [open] + Group(Opt(tokens[0], []), tokens[1..])
    else Group(Opt(open.flag, open.values + [tokens[0]]), tokens[1..])
  }

  function Grouped(tokens: seq<string>): seq<Opt>
    requires BeginsWithFlag(tokens)
  {
    if tokens == [] then [] else Group(Opt(tokens[0], []), tokens[1..])
  }

  lemma {:induction false} GroupAreOpts(open: Opt, tokens: seq<string>)
    requires IsOpt(open)
    ensures AreOpts(Group(open, tokens))
    decreases tokens
  {
    if tokens != [] {
      if IsFlag(tokens[0]) {
        GroupAreOpts(Opt(tokens[0], []), tokens[1..]);
      } else {
        GroupAreOpts(Opt(open.flag, open.values + [tokens[0]]), tokens[1..]);
      }
    }
  }

  lemma GroupedAreOpts(tokens: seq<string>)
    requires BeginsWithFlag(tokens)
    ensures AreOpts(Grouped(tokens))
  {
    if tokens != [] {
      GroupAreOpts(Opt(tokens[0], []), tokens[1..]);
    }
  }

  lemma {:induction false} TokensConcat(a: seq<Opt>, b: seq<Opt>)
    ensures Tokens(a + b) == Tokens(a) + Tokens(b)
  {
    if a == [] {
      assert a + b == b;
    } else {
      assert (a + b)[1..] == a[1..] + b;
      TokensConcat(a[1..], b);
    }
  }

  lemma TokensStep(o: Opt, os: seq<Opt>)
    ensures Tokens([o] + os) == [o.flag] + o.values + Tokens(os)
  {
  }

  lemma OneOption(o: Opt)
    ensures Tokens([o]) == [o.flag] + o.values
  {
  }

  lemma {:induction false} TokensOfGroup(open: Opt, tokens: seq<string>)
    ensures Tokens(Group(open, tokens)) == [open.flag] + open.values + tokens
    decreases tokens
  {
    if tokens == [] {
      OneOption(open);
    } else if IsFlag(tokens[0]) {
      var next := Opt(tokens[0], []);
      TokensOfGroup(next, tokens[1..]);
      TokensStep(open, Group(next, tokens[1..]));
    } else {
      TokensOfGroup(Opt(open.flag, open.values + [tokens[0]]), tokens[1..]);
    }
  }

  /** Writing the options out again gives the tokens back. */
  lemma TokensOfOptions(tokens: seq<string>)
    requires BeginsWithFlag(tokens)
    ensures Tokens(Grouped(tokens)) == tokens
  {
    if tokens != [] {
      TokensOfGroup(Opt(tokens[0], []), tokens[1..]);
    }
  }

  lemma {:induction false} GroupTakesValues(open: Opt, vs: seq<string>, rest: seq<string>)
    requires forall k :: 0 <= k < |vs| ==> !IsFlag(vs[k])
    ensures Group(open, vs + rest) == Group(Opt(open.flag, open.values + vs), rest)
    decreases vs
  {
    if vs == [] {
      assert vs + rest == rest && open.values + vs == open.values;
    } else {
      var wider := Opt(open.flag, open.values + [vs[0]]);
      assert (vs + rest)[1..] == vs[1..] + rest;
      GroupTakesValues(wider, vs[1..], rest);
      assert wider.values + vs[1..] == open.values + vs;
    }
  }

  lemma GroupNext(open: Opt, o: Opt, rest: seq<string>)
    requires IsOpt(o)
    ensures Group(open, [o.flag] + o.values + rest) == [open] + Group(o, rest)
  {
    var all := [o.flag] + o.values + rest;
    assert all[0] == o.flag && all[1..] == o.values + rest;
    GroupTakesValues(Opt(o.flag, []), o.values, rest);
    assert [] + o.values == o.values;
  }

  lemma {:induction false} GroupOfTokens(open: Opt, os: seq<Opt>)
    requires AreOpts(os)
    ensures Group(open, Tokens(os)) == [open] + os
    decreases os
  {
    if os != [] {
      GroupNext(open, os[0], Tokens(os[1..]));
      GroupOfTokens(os[0], os[1..]);
    }
  }

  lemma TokensBegin(os: seq<Opt>)
    requires AreOpts(os)
    ensures BeginsWithFlag(Tokens(os))
  {
  }

  /** And options survive being written out as tokens and grouped again. */
  lemma OptionsOfTokens(os: seq<Opt>)
    requires AreOpts(os)
    ensures BeginsWithFlag(Tokens(os)) && Grouped(Tokens(os)) == os
  {
    TokensBegin(os);
    if os != [] {
      var o, rest := os[0], Tokens(os[1..]);
      assert Tokens(os)[0] == o.flag && Tokens(os)[1..] == o.values + rest;
      GroupTakesValues(Opt(o.flag, []), o.values, rest);
      assert [] + o.values == o.values;
      GroupOfTokens(o, os[1..]);
    }
  }

  // ---------- what overriding means ----------

  /** The options not named in the set, in order and unchanged. */
  function Unnamed(os: seq<Opt>, names: set<string>): (r: seq<Opt>)
    ensures forall o :: o in r <==> o in os && Name(o) !in names
  {
    if os == [] then []
    else
      assert forall o :: o in os <==> o == os[0] || o in os[1..];
      (if Name(os[0]) in names then [] else [os[0]]) + Unnamed(os[1..], names)
  }

  lemma {:induction false} KeptValues(vs: seq<string>, rest: seq<string>, names: set<string>, skipping: bool)
    requires (forall k :: 0 <= k < |vs| ==> !IsFlag(vs[k])) && BeginsWithFlag(rest)
    ensures KeptFrom(vs + rest, names, skipping) == (if skipping then [] else vs) + KeptFrom(rest, names, false)
  {
    if vs == [] {
      assert vs + rest == rest;
    } else {
      assert (vs + rest)[1..] == vs[1..] + rest;
      KeptValues(vs[1..], rest, names, skipping);
    }
  }

  lemma KeptOption(o: Opt, rest: seq<string>, names: set<string>)
    requires IsOpt(o) && BeginsWithFlag(rest)
    ensures KeptFrom([o.flag] + o.values + rest, names, false)
            == (if Name(o) in names then [] else [o.flag] + o.values) + KeptFrom(rest, names, false)
  {
    var all := [o.flag] + o.values + rest;
    assert all[0] == o.flag && all[1..] == o.values + rest;
    KeptValues(o.values, rest, names, Name(o) in names);
  }

  /** Token by token, the loop drops whole options: exactly those the extra arguments name. */
  lemma {:induction false} KeepsWholeOptions(os: seq<Opt>, names: set<string>)
    requires AreOpts(os)
    ensures KeptFrom(Tokens(os), names, false) == Tokens(Unnamed(os, names))
  {
    if os != [] {
      TokensBegin(os[1..]);
      KeepsWholeOptions(os[1..], names);
      KeptOption(os[0], Tokens(os[1..]), names);
      if Name(os[0]) !in names {
        TokensStep(os[0], Unnamed(os[1..], names));
      } else {
        assert Unnamed(os, names) == Unnamed(os[1..], names);
      }
    }
  }

  lemma UnnamedAreOpts(os: seq<Opt>, names: set<string>)
    requires AreOpts(os)
    ensures AreOpts(Unnamed(os, names))
  {
  }

  lemma GroupedConcat(os: seq<Opt>, extra: seq<string>)
    requires AreOpts(os) && BeginsWithFlag(extra)
    ensures BeginsWithFlag(Tokens(os) + extra) && Grouped(Tokens(os) + extra) == os + Grouped(extra)
  {
    TokensOfOptions(extra);
    GroupedAreOpts(extra);
    TokensConcat(os, Grouped(extra));
    OptionsOfTokens(os + Grouped(extra));
  }

  /** staticArgs' last line: what is left of the generated arguments, then the extra ones. */
  function FinalArgs(generated: seq<string>, extra: seq<string>): seq<string> {
    KeptFrom(generated, NamesSet(extra), false) + extra
  }

  /**
   Overriding preserves meaning: grouped into options, the final arguments are the generated options
   that the extra arguments do not set, in order and unchanged, followed by the extra options.
   */
  lemma OverrideKeepsMeaning(generated: seq<Opt>, extra: seq<string>)
    requires AreOpts(generated) && BeginsWithFlag(extra)
    ensures var final := FinalArgs(Tokens(generated), extra);
            BeginsWithFlag(final) && Grouped(final) == Unnamed(generated, NamesSet(extra)) + Grouped(extra)
  {
    KeepsWholeOptions(generated, NamesSet(extra));
    UnnamedAreOpts(generated, NamesSet(extra));
    GroupedConcat(Unnamed(generated, NamesSet(extra)), extra);
  }

  /** More values for the last option. */
  function AddValues(os: seq<Opt>, vs: seq<string>): seq<Opt>
    requires os != []
  {
    var last := os[|os| - 1];
    os[..|os| - 1] + [Opt(last.flag, last.values + vs)]
  }

  lemma TokensAddValues(os: seq<Opt>, vs: seq<string>)
    requires os != []
    ensures Tokens(AddValues(os, vs)) == Tokens(os) + vs
  {
    var init, last := os[..|os| - 1], os[|os| - 1];
    var longer := Opt(last.flag, last.values + vs);
    TokensConcat(init, [last]);
    TokensConcat(init, [longer]);
    OneOption(last);
    OneOption(longer);
    assert os == init + [last];
  }

  predicate NoFlags(tokens: seq<string>) {
    forall k :: 0 <= k < |tokens| ==> !IsFlag(tokens[k])
  }

  lemma AddedAreOpts(os: seq<Opt>, vs: seq<string>)
    requires AreOpts(os) && os != [] && NoFlags(vs)
    ensures AreOpts(AddValues(os, vs))
  {
  }

  lemma StrayNamesNothing(stray: seq<string>, extra: seq<string>)
    requires NoFlags(stray)
    ensures NamesSet(stray + extra) == NamesSet(extra)
  {
    NamesConcat(stray, extra);
    assert NamesSet(stray) == {};
  }

  lemma StrayTokens(os: seq<Opt>, stray: seq<string>, extra: seq<string>)
    requires os != []
    ensures Tokens(os) + (stray + extra) == Tokens(AddValues(os, stray)) + extra
  {
    TokensAddValues(os, stray);
    assert forall a: seq<string> :: a + (stray + extra) == a + stray + extra;
  }

  /**
   Without that precondition: values in front of the first extra flag join the last generated option
   that is left, whatever it is, and stand in front when none is left.
   */
  lemma StrayValuesJoin(generated: seq<Opt>, stray: seq<string>, extra: seq<string>)
    requires AreOpts(generated) && NoFlags(stray) && BeginsWithFlag(extra)
    ensures var kept, final := Unnamed(generated, NamesSet(extra)), FinalArgs(Tokens(generated), stray + extra);
            if kept == [] then final == stray + extra
            else BeginsWithFlag(final) && Grouped(final) == AddValues(kept, stray) + Grouped(extra)
  {
    var kept := Unnamed(generated, NamesSet(extra));
    StrayNamesNothing(stray, extra);
    KeepsWholeOptions(generated, NamesSet(extra));
    UnnamedAreOpts(generated, NamesSet(extra));
    if kept != [] {
      AddedAreOpts(kept, stray);
      StrayTokens(kept, stray, extra);
      GroupedConcat(AddValues(kept, stray), extra);
    }
  }

  /** So overriding keeps its meaning exactly when the extra arguments begin with a flag, or there are none. */
  lemma OverrideMeansExactlyWhen(generated: seq<Opt>, stray: seq<string>, extra: seq<string>)
    requires AreOpts(generated) && NoFlags(stray) && BeginsWithFlag(extra)
    ensures var kept, final := Unnamed(generated, NamesSet(extra)), FinalArgs(Tokens(generated), stray + extra);
            BeginsWithFlag(final) && Grouped(final) == kept + Grouped(extra) <==> stray == []
  {
    StrayValuesJoin(generated, stray, extra);
    var kept := Unnamed(generated, NamesSet(extra));
    if kept == [] {
      StandsInFront(stray, extra);
      assert kept + Grouped(extra) == Grouped(extra);
    } else {
      AddsExactlyWhen(kept, stray, Grouped(extra));
    }
  }

  lemma StandsInFront(stray: seq<string>, extra: seq<string>)
    requires NoFlags(stray) && BeginsWithFlag(extra)
    ensures BeginsWithFlag(stray + extra) <==> stray == []
    ensures stray == [] ==> stray + extra == extra
  {
    if stray != [] {
      assert (stray + extra)[0] == stray[0];
    }
  }

  lemma AddsExactlyWhen(os: seq<Opt>, vs: seq<string>, more: seq<Opt>)
    requires os != []
    ensures AddValues(os, vs) + more == os + more <==> vs == []
  {
    var n := |os| - 1;
    assert (AddValues(os, vs) + more)[n] == Opt(os[n].flag, os[n].values + vs);
    assert (os + more)[n] == os[n];
    assert |os[n].values + vs| == |os[n].values| + |vs|;
    if vs == [] {
      assert os[n].values + vs == os[n].values;
      assert AddValues(os, vs) == os;
    }
  }

  lemma {:induction false} UpToFirstEquals(name: string, rest: string)
    requires '=' !in name && (rest == "" || rest[0] == '=')
    ensures UpToEquals(name + rest) == name
  {
    if name == "" {
      assert name + rest == rest;
    } else {
      assert (name + rest)[1..] == name[1..] + rest;
      UpToFirstEquals(name[1..], rest);
    }
  }

  /** Both spellings set the same option, so either one in the extra arguments replaces either one generated. */
  lemma SpellingsAgree(name: string, value: string)
    requires IsFlag(name) && '=' !in name
    ensures FlagName(name) == FlagName(name + "=" + value) == Some(name)
    ensures NamesSet([name, value]) >= {name} && NamesSet([name + "=" + value]) == {name}
  {
    var long := name + ("=" + value);
    assert name + "=" + value == long && name + "" == name;
    UpToFirstEquals(name, "");
    UpToFirstEquals(name, "=" + value);
    assert long[0] == name[0] && long[1] == name[1];
    assert [name, value][0] == name && [long][0] == long;
  }

  // ---------- no option twice ----------

  predicate NoRepeat(os: seq<Opt>) {
    forall i, j :: 0 <= i < j < |os| ==> Name(os[i]) != Name(os[j])
  }

  predicate Disjoint(a: seq<Opt>, b: seq<Opt>) {
    forall i, j :: 0 <= i < |a| && 0 <= j < |b| ==> Name(a[i]) != Name(b[j])
  }

  lemma NoRepeatConcat(a: seq<Opt>, b: seq<Opt>)
    ensures NoRepeat(a + b) <==> NoRepeat(a) && NoRepeat(b) && Disjoint(a, b)
  {
    var c := a + b;
    if NoRepeat(c) {
      forall i, j | 0 <= i < j < |a| ensures Name(a[i]) != Name(a[j]) {
        assert c[i] == a[i] && c[j] == a[j];
      }
      forall i, j | 0 <= i < j < |b| ensures Name(b[i]) != Name(b[j]) {
        assert c[|a| + i] == b[i] && c[|a| + j] == b[j];
      }
      forall i, j | 0 <= i < |a| && 0 <= j < |b| ensures Name(a[i]) != Name(b[j]) {
        assert c[i] == a[i] && c[|a| + j] == b[j];
      }
    }
  }

  lemma {:induction false} UnnamedNoRepeat(os: seq<Opt>, names: set<string>)
    requires NoRepeat(os)
    ensures NoRepeat(Unnamed(os, names))
  {
    if os != [] {
      var rest := Unnamed(os[1..], names);
      UnnamedNoRepeat(os[1..], names);
      if Name(os[0]) !in names {
        forall k | 0 <= k < |rest|
          ensures Name(rest[k]) != Name(os[0])
        {
          assert rest[k] in rest;
          var j :| 0 <= j < |os[1..]| && os[1..][j] == rest[k];
          assert os[j + 1] == rest[k];
        }
      }
    }
  }

  lemma {:induction false} NamesConcat(a: seq<string>, b: seq<string>)
    ensures NamesSet(a + b) == NamesSet(a) + NamesSet(b)
  {
    if b == [] {
      assert a + b == a;
    } else {
      assert (a + b)[..|a + b| - 1] == a + b[..|b| - 1];
      NamesConcat(a, b[..|b| - 1]);
    }
  }

  lemma NamesOfOption(o: Opt)
    requires IsOpt(o)
    ensures NamesSet([o.flag] + o.values) == {Name(o)}
  {
    var tokens := [o.flag] + o.values;
    assert FlagName(tokens[0]) == Some(Name(o));
  }

  function OptionNames(os: seq<Opt>): (names: set<string>)
    ensures forall k :: 0 <= k < |os| ==> Name(os[k]) in names
    ensures forall n :: n in names ==> exists k :: 0 <= k < |os| && Name(os[k]) == n
  {
    set k | 0 <= k < |os| :: Name(os[k])
  }

  lemma OptionNamesStep(os: seq<Opt>)
    requires os != []
    ensures OptionNames(os) == {Name(os[0])} + OptionNames(os[1..])
  {
  }

  /** The names the tokens set are the names of the options. */
  lemma {:induction false} NamesOfOptions(os: seq<Opt>)
    requires AreOpts(os)
    ensures NamesSet(Tokens(os)) == OptionNames(os)
  {
    if os != [] {
      var o, rest := os[0], os[1..];
      NamesOfOptions(rest);
      NamesOfOption(o);
      NamesConcat([o.flag] + o.values, Tokens(rest));
      OptionNamesStep(os);
    }
  }

  lemma NamesOfGrouped(extra: seq<string>)
    requires BeginsWithFlag(extra)
    ensures OptionNames(Grouped(extra)) == NamesSet(extra)
  {
    TokensOfOptions(extra);
    GroupedAreOpts(extra);
    NamesOfOptions(Grouped(extra));
  }

  lemma DisjointByNames(a: seq<Opt>, b: seq<Opt>)
    ensures Disjoint(a, b) <==> OptionNames(a) !! OptionNames(b)
  {
  }

  lemma KeptAndExtraDisjoint(generated: seq<Opt>, extra: seq<string>)
    requires BeginsWithFlag(extra)
    ensures Disjoint(Unnamed(generated, NamesSet(extra)), Grouped(extra))
  {
    var kept, more := Unnamed(generated, NamesSet(extra)), Grouped(extra);
    NamesOfGrouped(extra);
    forall i, j | 0 <= i < |kept| && 0 <= j < |more|
      ensures Name(kept[i]) != Name(more[j])
    {
      assert kept[i] in kept;
    }
  }

  /** The server refuses a repeated option. The static arguments have none exactly when the extra ones have none. */
  lemma StaticArgsRepeatOnlyIfExtraDoes(generated: seq<Opt>, extra: seq<string>)
    requires AreOpts(generated) && NoRepeat(generated) && BeginsWithFlag(extra)
    ensures BeginsWithFlag(FinalArgs(Tokens(generated), extra))
    ensures NoRepeat(Grouped(FinalArgs(Tokens(generated), extra))) <==> NoRepeat(Grouped(extra))
  {
    OverrideKeepsMeaning(generated, extra);
    UnnamedNoRepeat(generated, NamesSet(extra));
    KeptAndExtraDisjoint(generated, extra);
    NoRepeatConcat(Unnamed(generated, NamesSet(extra)), Grouped(extra));
  }

  lemma UnnamedDisjoint(node: seq<Opt>, generated: seq<Opt>, names: set<string>)
    requires Disjoint(node, generated)
    ensures Disjoint(node, Unnamed(generated, names))
  {
  }

  /**
   On the whole command line the script puts the node's own options first, and those are not
   subject to overriding. So an option is repeated exactly when the extra arguments repeat one or
   set one of the node's.
   */
  lemma CommandLineRepeatsExactlyWhen(node: seq<Opt>, generated: seq<Opt>, extra: seq<string>)
    requires AreOpts(node) && NoRepeat(node) && AreOpts(generated) && NoRepeat(generated)
    requires Disjoint(node, generated) && BeginsWithFlag(extra)
    ensures BeginsWithFlag(FinalArgs(Tokens(generated), extra))
    ensures NoRepeat(node + Grouped(FinalArgs(Tokens(generated), extra)))
            <==> NoRepeat(Grouped(extra)) && OptionNames(node) !! NamesSet(extra)
  {
    var kept, more := Unnamed(generated, NamesSet(extra)), Grouped(extra);
    StaticArgsRepeatOnlyIfExtraDoes(generated, extra);
    OverrideKeepsMeaning(generated, extra);
    UnnamedDisjoint(node, generated, NamesSet(extra));
    NoRepeatConcat(node, kept + more);
    DisjointConcat(node, kept, more);
    NamesOfGrouped(extra);
    DisjointByNames(node, more);
  }

  lemma DisjointConcat(a: seq<Opt>, b: seq<Opt>, c: seq<Opt>)
    ensures Disjoint(a, b + c) <==> Disjoint(a, b) && Disjoint(a, c)
  {
    var d := b + c;
    if Disjoint(a, d) {
      forall i, j | 0 <= i < |a| && 0 <= j < |b| ensures Name(a[i]) != Name(b[j]) {
        assert d[j] == b[j];
      }
      forall i, j | 0 <= i < |a| && 0 <= j < |c| ensures Name(a[i]) != Name(c[j]) {
        assert d[|b| + j] == c[j];
      }
    }
  }

  /** The options the script computes from the pod's own identity. */
  function NodeOptions(podName: string, nodeId: string, host: string, port: string): seq<Opt> {
    [Opt("--raft-nodename", [podName]), Opt("--raft-nodeid", [nodeId]),
     Opt("--raft-host", [host]), Opt("--raft-port", [port])]
  }

  lemma RepeatsAcross(a: seq<Opt>, b: seq<Opt>, c: seq<Opt>, name: string)
    requires name in OptionNames(a) && name in OptionNames(c)
    ensures !NoRepeat(a + (b + c))
  {
    NoRepeatConcat(a, b + c);
    DisjointConcat(a, b, c);
    DisjointByNames(a, c);
  }

  /** Whatever else is on the line, extra arguments that set one of the node's options make one the server refuses. */
  lemma NodeOptionIsNotOverridable(node: seq<Opt>, generated: seq<Opt>, extra: seq<string>, k: nat)
    requires AreOpts(generated) && BeginsWithFlag(extra)
    requires k < |node| && Name(node[k]) in NamesSet(extra)
    ensures BeginsWithFlag(FinalArgs(Tokens(generated), extra))
    ensures !NoRepeat(node + Grouped(FinalArgs(Tokens(generated), extra)))
  {
    OverrideKeepsMeaning(generated, extra);
    NamesOfGrouped(extra);
    RepeatsAcross(node, Unnamed(generated, NamesSet(extra)), Grouped(extra), Name(node[k]));
  }

  /** The Raft port, for one. */
  lemma RaftPortIsNotOverridable(podName: string, nodeId: string, host: string, port: string, value: string,
                                 generated: seq<Opt>)
    requires AreOpts(generated)
    ensures var final := FinalArgs(Tokens(generated), ["--raft-port", value]);
            BeginsWithFlag(final) && !NoRepeat(NodeOptions(podName, nodeId, host, port) + Grouped(final))
  {
    var extra := ["--raft-port", value];
    assert FlagName(extra[0]) == Some(UpToEquals("--raft-port"));
    NodeOptionIsNotOverridable(NodeOptions(podName, nodeId, host, port), generated, extra, 3);
  }

  /** End to end: the shell reads the script's line back as those options. */
  lemma ScriptLineMeans(generated: seq<Opt>, extra: seq<string>)
    requires AreOpts(generated) && BeginsWithFlag(extra)
    requires NoNuls(FinalArgs(Tokens(generated), extra))
    ensures var read := Words(ArgsLine(FinalArgs(Tokens(generated), extra)));
            && read.Some? && BeginsWithFlag(read.value)
            && Grouped(read.value) == Unnamed(generated, NamesSet(extra)) + Grouped(extra)
  {
    ShellReadsBack(FinalArgs(Tokens(generated), extra));
    OverrideKeepsMeaning(generated, extra);
  }
}
