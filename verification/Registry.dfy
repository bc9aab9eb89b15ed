/** Custom-preset inheritance (fingerprint/custom_preset.go, fingerprint/registry.go): the based_on
    loop guard and the registry it protects. */
module Registry {

  /** Each registered custom preset's name, with the name it is based on ("" for none). */
  type Registry = map<string, string>

  function Parent(reg: Registry, name: string): string
  {
    if name != "" && name in reg then reg[name] else ""
  }

  /** The k-th ancestor; "" once the chain has left the custom presets. */
  function Climb(reg: Registry, name: string, k: nat): string
  {
    if k == 0 then name else Parent(reg, Climb(reg, name, k - 1))
  }

  ghost predicate Acyclic(reg: Registry)
  {
    forall n, k: nat | n in reg && n != "" && k > 0 :: Climb(reg, n, k) != n
  }

  /** The chain above basedOn never meets name, nor itself. */
  ghost predicate ChainIsFresh(reg: Registry, name: string, basedOn: string)
  {
    forall i: nat | Climb(reg, basedOn, i) != "" ::
      Climb(reg, basedOn, i) != name && forall j: nat | j < i :: Climb(reg, basedOn, j) != Climb(reg, basedOn, i)
  }

  lemma {:induction false} ClimbStaysEmpty(reg: Registry, n: string, i: nat, j: nat)
    requires i <= j && Climb(reg, n, i) == ""
    ensures Climb(reg, n, j) == ""
    decreases j
  {
    if i < j {
      ClimbStaysEmpty(reg, n, i, j - 1);
    }
  }

  lemma {:induction false} ClimbAdds(reg: Registry, n: string, i: nat, j: nat)
    ensures Climb(reg, n, i + j) == Climb(reg, Climb(reg, n, i), j)
    decreases j
  {
    if j > 0 {
      ClimbAdds(reg, n, i, j - 1);
    }
  }

  /** The first k names of the chain. */
  ghost function Names(reg: Registry, basedOn: string, k: nat): set<string>
  {
    if k == 0 then {} else Names(reg, basedOn, k - 1) + {Climb(reg, basedOn, k - 1)}
  }

  lemma {:induction false} ClimbInNames(reg: Registry, basedOn: string, k: nat, j: nat)
    requires j < k
    ensures Climb(reg, basedOn, j) in Names(reg, basedOn, k)
    decreases k
  {
    if j < k - 1 {
      ClimbInNames(reg, basedOn, k - 1, j);
    }
  }

  lemma {:induction false} NameIsClimb(reg: Registry, basedOn: string, k: nat, v: string) returns (j: nat)
    requires v in Names(reg, basedOn, k)
    ensures j < k && Climb(reg, basedOn, j) == v
    decreases k
  {
    if v in Names(reg, basedOn, k - 1) {
      j := NameIsClimb(reg, basedOn, k - 1, v);
    } else {
      j := k - 1;
    }
  }

  /** The first k names of the chain are non-empty, distinct and none of them name. */
  ghost predicate FreshUpTo(reg: Registry, name: string, basedOn: string, k: nat)
  {
    k > 0 ==>
      var c := Climb(reg, basedOn, k - 1);
      c != "" && c != name && c !in Names(reg, basedOn, k - 1) && FreshUpTo(reg, name, basedOn, k - 1)
  }

  lemma {:induction false} FreshBelow(reg: Registry, name: string, basedOn: string, k: nat, i: nat)
    requires FreshUpTo(reg, name, basedOn, k) && i < k
    ensures Climb(reg, basedOn, i) != name
    ensures forall j: nat | j < i :: Climb(reg, basedOn, j) != Climb(reg, basedOn, i)
    decreases k
  {
    if i < k - 1 {
      FreshBelow(reg, name, basedOn, k - 1, i);
    } else {
      forall j: nat | j < i
        ensures Climb(reg, basedOn, j) != Climb(reg, basedOn, i)
      {
        ClimbInNames(reg, basedOn, i, j);
      }
    }
  }

  /** The walk has passed k fresh names and visited holds them and name. */
  ghost predicate Passed(reg: Registry, name: string, basedOn: string, k: nat, visited: set<string>)
  {
    visited == {name} + Names(reg, basedOn, k) && FreshUpTo(reg, name, basedOn, k)
  }

  lemma PassedStep(reg: Registry, name: string, basedOn: string, k: nat, visited: set<string>)
    requires Passed(reg, name, basedOn, k, visited)
    requires Climb(reg, basedOn, k) != "" && Climb(reg, basedOn, k) !in visited
    ensures Passed(reg, name, basedOn, k + 1, visited + {Climb(reg, basedOn, k)})
  {
    assert Names(reg, basedOn, k + 1) == Names(reg, basedOn, k) + {Climb(reg, basedOn, k)};
  }

  lemma Revisit(reg: Registry, name: string, basedOn: string, k: nat, visited: set<string>)
    requires Passed(reg, name, basedOn, k, visited) && Climb(reg, basedOn, k) in visited && Climb(reg, basedOn, k) != ""
    ensures !ChainIsFresh(reg, name, basedOn)
  {
    if Climb(reg, basedOn, k) != name {
      var j := NameIsClimb(reg, basedOn, k, Climb(reg, basedOn, k));
    }
  }

  lemma FreshWhenLeft(reg: Registry, name: string, basedOn: string, k: nat, visited: set<string>)
    requires Passed(reg, name, basedOn, k, visited) && Climb(reg, basedOn, k) == ""
    ensures ChainIsFresh(reg, name, basedOn)
  {
    forall i: nat | Climb(reg, basedOn, i) != ""
      ensures Climb(reg, basedOn, i) != name
      ensures forall j: nat | j < i :: Climb(reg, basedOn, j) != Climb(reg, basedOn, i)
    {
      if k <= i {
        ClimbStaysEmpty(reg, basedOn, k, i);
        assert false;
      } else {
        FreshBelow(reg, name, basedOn, k, i);
      }
    }
  }

  /** The walk of BuildPreset. It ends for every registry, cyclic or not, and rejects exactly the chains
      that come back to the preset being built or to themselves. */
  method LoopGuard(reg: Registry, name: string, basedOn: string) returns (ok: bool)
    ensures name != "" && basedOn != "" ==> (ok <==> ChainIsFresh(reg, name, basedOn))
    ensures name == "" || basedOn == "" ==> ok
  {
    if basedOn == "" || name == "" {
      return true;
    }
    var visited := {name};
    var cur := basedOn;
    ghost var k: nat := 0;
    while cur != ""
      invariant cur == Climb(reg, basedOn, k) && Passed(reg, name, basedOn, k, visited)
      decreases reg.Keys - visited, cur in reg
    {
      if cur in visited {
        Revisit(reg, name, basedOn, k, visited);
        return false;
      }
      PassedStep(reg, name, basedOn, k, visited);
      visited := visited + {cur};
      if cur !in reg {
        assert Climb(reg, basedOn, k + 1) == "";
        k := k + 1;
        break;
      }
      cur := reg[cur];
      k := k + 1;
    }
    FreshWhenLeft(reg, name, basedOn, k, visited);
    return true;
  }

  // ----- Every run keeps the graph acyclic

  /** What the guard asks; it is skipped when either name is empty. */
  ghost predicate GuardPasses(reg: Registry, name: string, basedOn: string)
  {
    name == "" || basedOn == "" || ChainIsFresh(reg, name, basedOn)
  }

  /** Without meeting name, the climb is the same before and after name's entry changes. */
  lemma {:induction false} SameClimb(reg: Registry, other: Registry, name: string, n: string, k: nat)
    requires forall x | x != name :: Parent(other, x) == Parent(reg, x)
    requires forall i: nat | i < k :: Climb(other, n, i) != name
    ensures Climb(other, n, k) == Climb(reg, n, k)
    decreases k
  {
    if k > 0 {
      SameClimb(reg, other, name, n, k - 1);
    }
  }

  /** A cycle that meets name is a cycle through name. */
  lemma CycleThrough(reg: Registry, n: string, k: nat, i: nat)
    requires i < k && Climb(reg, n, k) == n
    ensures Climb(reg, Climb(reg, n, i), k) == Climb(reg, n, i)
  {
    var name := Climb(reg, n, i);
    ClimbAdds(reg, n, i, k - i);
    ClimbAdds(reg, name, k - i, i);
  }

  lemma {:induction false} FirstReturn(reg: Registry, name: string, k: nat) returns (m: nat)
    requires k > 0 && Climb(reg, name, k) == name
    ensures 0 < m <= k && Climb(reg, name, m) == name && forall j: nat | 0 < j < m :: Climb(reg, name, j) != name
    decreases k
  {
    if j: nat :| 0 < j < k && Climb(reg, name, j) == name {
      m := FirstReturn(reg, name, j);
    } else {
      m := k;
    }
  }

  lemma NewEntryMakesNoCycle(reg: Registry, name: string, basedOn: string, k: nat)
    requires name != "" && k > 0 && GuardPasses(reg, name, basedOn)
    ensures Climb(reg[name := basedOn], name, k) != name
  {
    var after := reg[name := basedOn];
    if Climb(after, name, k) == name {
      var m := FirstReturn(after, name, k);
      assert Climb(after, name, 1) == Parent(after, Climb(after, name, 0)) == basedOn;
      forall i: nat | i < m - 1
        ensures Climb(after, basedOn, i) != name
      {
        ClimbAdds(after, name, 1, i);
      }
      ClimbAdds(after, name, 1, m - 1);
      SameClimb(reg, after, name, basedOn, m - 1);
      assert Climb(reg, basedOn, m - 1) == name;
      if basedOn == "" {
        ClimbStaysEmpty(reg, basedOn, 0, m - 1);
      }
    }
  }

  lemma {:induction false} SameParentsSameClimb(reg: Registry, other: Registry, n: string, k: nat)
    requires forall x :: Parent(other, x) == Parent(reg, x)
    ensures Climb(other, n, k) == Climb(reg, n, k)
    decreases k
  {
    if k > 0 {
      SameParentsSameClimb(reg, other, n, k - 1);
    }
  }

  /** An entry under the empty name is never climbed through. */
  lemma UnnamedKeepsAcyclic(reg: Registry, basedOn: string)
    requires Acyclic(reg)
    ensures Acyclic(reg["" := basedOn])
  {
    var after := reg["" := basedOn];
    forall n, k: nat | n in after && n != "" && k > 0
      ensures Climb(after, n, k) != n
    {
      SameParentsSameClimb(reg, after, n, k);
    }
  }

  lemma RegisterKeepsAcyclic(reg: Registry, name: string, basedOn: string)
    requires Acyclic(reg) && GuardPasses(reg, name, basedOn)
    ensures Acyclic(reg[name := basedOn])
  {
    var after := reg[name := basedOn];
    if name == "" {
      UnnamedKeepsAcyclic(reg, basedOn);
    } else {
      forall n, k: nat | n in after && n != "" && k > 0
        ensures Climb(after, n, k) != n
      {
        if Climb(after, n, k) == n {
          assert Climb(after, n, 0) == n;
          if i: nat :| i < k && Climb(after, n, i) == name {
            CycleThrough(after, n, k, i);
            NewEntryMakesNoCycle(reg, name, basedOn, k);
          } else {
            SameClimb(reg, after, name, n, k);
          }
        }
      }
    }
  }

  lemma {:induction false} FirstMeeting(reg: Registry, name: string, n: string, i: nat) returns (m: nat)
    requires Climb(reg, n, i) == name
    ensures m <= i && Climb(reg, n, m) == name && forall j: nat | j < m :: Climb(reg, n, j) != name
    decreases i
  {
    if j: nat :| j < i && Climb(reg, n, j) == name {
      m := FirstMeeting(reg, name, n, j);
    } else {
      m := i;
    }
  }

  /** A chain that reaches name closes a cycle once name is put below it. */
  lemma MeetingClosesCycle(reg: Registry, name: string, basedOn: string, i: nat)
    requires name != "" && Climb(reg, basedOn, i) == name
    ensures !Acyclic(reg[name := basedOn])
  {
    var after := reg[name := basedOn];
    var m := FirstMeeting(reg, name, basedOn, i);
    SameClimb(after, reg, name, basedOn, m);
    assert Climb(after, name, 1) == Parent(after, Climb(after, name, 0)) == basedOn;
    ClimbAdds(after, name, 1, m);
    assert Climb(after, name, 1 + m) == name;
  }

  /** In an acyclic registry no chain meets itself. */
  lemma ChainNeverRepeats(reg: Registry, n: string, j: nat, i: nat)
    requires Acyclic(reg) && j < i && Climb(reg, n, i) != ""
    ensures Climb(reg, n, j) != Climb(reg, n, i)
  {
    var c := Climb(reg, n, j);
    ClimbAdds(reg, n, j, i - j);
    if c !in reg {
      assert Climb(reg, c, 1) == Parent(reg, Climb(reg, c, 0)) == "";
      ClimbStaysEmpty(reg, c, 1, i - j);
    } else if c == "" {
      ClimbStaysEmpty(reg, c, 0, i - j);
    }
  }

  /** The guard asks for exactly what is needed, if it is asked of the registry that the preset is stored
      into: storing keeps the graph acyclic if and only if the guard passes there and then. */
  lemma RegisterAcyclicIffGuard(reg: Registry, name: string, basedOn: string)
    requires Acyclic(reg)
    ensures Acyclic(reg[name := basedOn]) <==> GuardPasses(reg, name, basedOn)
  {
    if GuardPasses(reg, name, basedOn) {
      RegisterKeepsAcyclic(reg, name, basedOn);
    } else {
      var i: nat :| Climb(reg, basedOn, i) != "" &&
                    !(Climb(reg, basedOn, i) != name &&
                      forall j: nat | j < i :: Climb(reg, basedOn, j) != Climb(reg, basedOn, i));
      forall j: nat | j < i
        ensures Climb(reg, basedOn, j) != Climb(reg, basedOn, i)
      {
        ChainNeverRepeats(reg, basedOn, j, i);
      }
      MeetingClosesCycle(reg, name, basedOn, i);
    }
  }

  lemma UnregisterKeepsAcyclic(reg: Registry, name: string)
    requires Acyclic(reg)
    ensures Acyclic(reg - {name})
  {
    var after := reg - {name};
    forall n, k: nat | n in after && n != "" && k > 0
      ensures Climb(after, n, k) != n
    {
      if Climb(after, n, k) == n {
        if i: nat :| i < k && Climb(after, n, i) == name {
          assert Climb(after, n, i + 1) == "";
          ClimbStaysEmpty(after, n, i + 1, k);
        } else {
          SameClimb(reg, after, name, n, k);
        }
      }
    }
  }

  /** A sequential step: build a preset and register it under its own name (strictly, so that a taken
      name is refused, or not), or unregister one. */
  datatype Op =
    | BuildAndRegister(name: string, basedOn: string, strict: bool)
    | Unregister(gone: string)

  ghost function Apply(reg: Registry, op: Op, builtins: set<string>): Registry
  {
    match op
    case BuildAndRegister(name, basedOn, strict) =>
      var baseExists := basedOn == "" || basedOn in reg || basedOn in builtins;
      if !GuardPasses(reg, name, basedOn) || !baseExists then reg
      else if strict && (name == "" || name in reg || name in builtins) then reg
      else reg[name := basedOn]
    case Unregister(gone) => reg - {gone}
  }

  ghost function ApplyAll(reg: Registry, ops: seq<Op>, builtins: set<string>): Registry
    decreases |ops|
  {
    if ops == [] then reg else ApplyAll(Apply(reg, ops[0], builtins), ops[1..], builtins)
  }

  /** Any run of such steps keeps the inheritance graph acyclic. */
  lemma {:induction false} RunsStayAcyclic(reg: Registry, ops: seq<Op>, builtins: set<string>)
    requires Acyclic(reg)
    ensures Acyclic(ApplyAll(reg, ops, builtins))
    decreases |ops|
  {
    if ops != [] {
      var op := ops[0];
      match op {
        case BuildAndRegister(name, basedOn, strict) =>
          if GuardPasses(reg, name, basedOn) {
            RegisterKeepsAcyclic(reg, name, basedOn);
          }
        case Unregister(gone) => UnregisterKeepsAcyclic(reg, gone);
      }
      RunsStayAcyclic(Apply(reg, op, builtins), ops[1..], builtins);
    }
  }

  // ----- Builds and registrations in any order, under any name

  /** A built preset: the name it was built under and what it is based on. */
  datatype Built = Built(own: string, base: string)

  /** built holds the presets that have passed the guard; each may be registered at any later time, under any
      name, more than once. */
  datatype State = State(reg: Registry, built: set<Built>)

  datatype Event =
    | Build(preset: Built)
    | Register(under: string, stored: Built, strict: bool)
    | Delete(gone: string)

  ghost predicate Registers(s: State, e: Event, builtins: set<string>)
  {
    && e.Register? && e.stored in s.built
    && !(e.strict && (e.under == "" || e.under in s.reg || e.under in builtins))
  }

  ghost function Step(s: State, e: Event, builtins: set<string>): State
  {
    match e
    case Build(b) =>
      var baseExists := b.base == "" || b.base in s.reg || b.base in builtins;
      if GuardPasses(s.reg, b.own, b.base) && baseExists then s.(built := s.built + {b}) else s
    case Register(under, b, _) => if Registers(s, e, builtins) then s.(reg := s.reg[under := b.base]) else s
    case Delete(gone) => s.(reg := s.reg - {gone})
  }

  ghost function Run(s: State, es: seq<Event>, builtins: set<string>): State
    decreases |es|
  {
    if es == [] then s else Run(Step(s, es[0], builtins), es[1..], builtins)
  }

  ghost predicate AlwaysAcyclic(s: State, es: seq<Event>, builtins: set<string>)
    decreases |es|
  {
    Acyclic(s.reg) && (es != [] ==> AlwaysAcyclic(Step(s, es[0], builtins), es[1..], builtins))
  }

  /** At every registration the guard, asked for the name stored under and the registry stored into, would
      pass. */
  ghost predicate GuardsStillPass(s: State, es: seq<Event>, builtins: set<string>)
    decreases |es|
  {
    es != [] ==>
      && (Registers(s, es[0], builtins) ==> GuardPasses(s.reg, es[0].under, es[0].stored.base))
      && GuardsStillPass(Step(s, es[0], builtins), es[1..], builtins)
  }

  /** A run keeps the graph acyclic throughout if and only if no preset is stored where its guard would not
      pass: after it has gone stale, or under a name that it was not asked for. */
  lemma {:induction false} AcyclicIffGuardsFresh(s: State, es: seq<Event>, builtins: set<string>)
    requires Acyclic(s.reg)
    ensures AlwaysAcyclic(s, es, builtins) <==> GuardsStillPass(s, es, builtins)
    decreases |es|
  {
    if es != [] {
      var t := Step(s, es[0], builtins);
      if Registers(s, es[0], builtins) {
        RegisterAcyclicIffGuard(s.reg, es[0].under, es[0].stored.base);
      } else if es[0].Delete? {
        UnregisterKeepsAcyclic(s.reg, es[0].gone);
      }
      if Acyclic(t.reg) {
        AcyclicIffGuardsFresh(t, es[1..], builtins);
      }
    }
  }

  /** Guards do go stale: whenever either of two registered presets may be based on the other, building
      both before storing both closes a cycle. */
  lemma OverlappingBuildsCloseCycle(reg: Registry, a: string, b: string, builtins: set<string>)
    requires Acyclic(reg) && a != "" && b != "" && a in reg && b in reg
    requires GuardPasses(reg, a, b) && GuardPasses(reg, b, a)
    ensures var ab, ba := Built(a, b), Built(b, a);
            var es := [Build(ab), Build(ba), Register(a, ab, false), Register(b, ba, false)];
            !Acyclic(Run(State(reg, {}), es, builtins).reg)
  {
    var ab, ba := Built(a, b), Built(b, a);
    var es := [Build(ab), Build(ba), Register(a, ab, false), Register(b, ba, false)];
    var s0 := State(reg, {});
    var s1 := Step(s0, es[0], builtins);
    var s2 := Step(s1, es[1], builtins);
    var s3 := Step(s2, es[2], builtins);
    var s4 := Step(s3, es[3], builtins);
    var tail := es[1..][1..];
    assert es[1..][0] == es[1] && tail[0] == es[2] && tail[1..][0] == es[3] && tail[1..][1..] == [];
    assert Run(s0, es, builtins) == Run(s1, es[1..], builtins) == Run(s2, tail, builtins) ==
           Run(s3, tail[1..], builtins) == s4;
    assert s4.reg == reg[a := b][b := a];
    assert Climb(s4.reg, a, 1) == Parent(s4.reg, Climb(s4.reg, a, 0)) == b;
    assert Climb(s4.reg, a, 2) == Parent(s4.reg, Climb(s4.reg, a, 1)) == a;
  }

  /** Such a pair exists: two presets without a base. */
  lemma TwoRootsMayNest(a: string, b: string)
    requires a != b && a != "" && b != ""
    ensures var reg: Registry := map[a := "", b := ""];
            Acyclic(reg) && GuardPasses(reg, a, b) && GuardPasses(reg, b, a)
  {
    var reg: Registry := map[a := "", b := ""];
    forall n, k: nat | k > 0 && (n == a || n == b)
      ensures Climb(reg, n, k) == ""
    {
      assert Climb(reg, n, 1) == Parent(reg, Climb(reg, n, 0)) == "";
      ClimbStaysEmpty(reg, n, 1, k);
    }
  }

  /** No overlap is needed when the name differs: any preset that may be based on a registered one closes a
      cycle as soon as it is stored in that one's place. */
  lemma OtherNameClosesCycle(reg: Registry, own: string, b: string, builtins: set<string>)
    requires b != "" && b in reg && GuardPasses(reg, own, b)
    ensures var es := [Build(Built(own, b)), Register(b, Built(own, b), false)];
            !Acyclic(Run(State(reg, {}), es, builtins).reg)
  {
    var es := [Build(Built(own, b)), Register(b, Built(own, b), false)];
    var s0 := State(reg, {});
    var s1 := Step(s0, es[0], builtins);
    var s2 := Step(s1, es[1], builtins);
    assert es[1..][0] == es[1] && es[1..][1..] == [];
    assert Run(s0, es, builtins) == Run(s1, es[1..], builtins) == s2;
    assert Climb(s2.reg, b, 1) == Parent(s2.reg, Climb(s2.reg, b, 0)) == b;
  }

  // ----- Strict registration

  /** A strict registration takes a name only if it is not empty, not taken and no built-in's. */
  lemma StrictTakesFreeNames(s: State, under: string, preset: Built, builtins: set<string>)
    requires preset in s.built
    ensures var t := Step(s, Register(under, preset, true), builtins);
            if under != "" && under !in s.reg && under !in builtins then t.reg == s.reg[under := preset.base]
            else t == s
  {
  }

  /** A plain registration replaces what was there. */
  lemma PlainReplaces(s: State, under: string, preset: Built, builtins: set<string>)
    requires preset in s.built
    ensures Step(s, Register(under, preset, false), builtins).reg == s.reg[under := preset.base]
  {
  }

  /** While every registration is strict, no built-in is ever shadowed and a name is never re-based without being
      deleted first. */
  lemma {:induction false} StrictNeverShadows(s: State, es: seq<Event>, builtins: set<string>)
    requires forall e | e in es && e.Register? :: e.strict
    requires forall n | n in s.reg :: n !in builtins
    ensures var t := Run(s, es, builtins);
            && (forall n | n in t.reg :: n !in builtins)
            && (forall n | n in s.reg && Delete(n) !in es :: n in t.reg && t.reg[n] == s.reg[n])
    decreases |es|
  {
    if es != [] {
      assert es == [es[0]] + es[1..];
      StrictNeverShadows(Step(s, es[0], builtins), es[1..], builtins);
    }
  }

  /** Nothing is built on a preset that is neither registered nor built in, nor into a loop. */
  lemma BuiltOnlyOnKnown(s: State, b: Built, builtins: set<string>)
    requires b !in s.built
    ensures b in Step(s, Build(b), builtins).built <==>
            && (b.base == "" || b.base in s.reg || b.base in builtins)
            && (b.own == "" || b.base == "" || ChainIsFresh(s.reg, b.own, b.base))
  {
  }
}
