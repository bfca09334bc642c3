/** Opening, using and releasing practice/mydevice: one writer at a time, any number of readers,
    and a reference count. Each critical section of `mydevopen` and `mydevrelease` is one step,
    reads and writes of an open file are one step each; different files interleave freely. An
    action that is not enabled leaves the state alone.
 */
module OpenProtocol {
  import opened Wrappers

  /** Size of both local buffers: reads need at least this much, writes at most. */
  const BUF: nat := 64

  datatype Context =
    | Claiming(write: bool)     // allocated, the config section is ahead
    | Refused                   // found the config role taken, will return -EBUSY
    | Admitted(isConfig: bool)  // past the config section, addref is ahead
    | Open(isConfig: bool, off: nat) // with its file offset, shared by read and write
    | Closing(isConfig: bool)   // release entered, config not yet given back
    | Leaving                   // context freed, relref is ahead

  /** `emptied` records that relref ever found the count at zero; `wakes` counts wake-ups. */
  datatype Device = Device(
    configOpened: bool, reference: int, config: int, ctxs: map<nat, Context>, emptied: bool, wakes: nat)

  datatype Action =
    | Enter(id: nat, write: bool) | Claim(id: nat) | GiveUp(id: nat) | AddRef(id: nat)
    | Release(id: nat) | ClearConfig(id: nat) | RelRef(id: nat)
    | Read(id: nat, count: nat, len: nat)                      // len: length of the formatted text
    | Write(id: nat, count: nat, parsed: Option<int>)          // parsed: the number sscanf found

  function Init(): Device { Device(false, 0, 0, map[], false, 0) }

  function Without(m: map<nat, Context>, id: nat): map<nat, Context> { m - {id} }

  function Step(d: Device, a: Action): Device {
    match a
    case Enter(id, write) => if id in d.ctxs then d else d.(ctxs := d.ctxs[id := Claiming(write)])
    case Claim(id) =>
      if id !in d.ctxs || !d.ctxs[id].Claiming? then d
      else if !d.ctxs[id].write then d.(ctxs := d.ctxs[id := Admitted(false)])
      else if d.configOpened then d.(ctxs := d.ctxs[id := Refused])
      else d.(configOpened := true, ctxs := d.ctxs[id := Admitted(true)])
    case GiveUp(id) =>
      if id in d.ctxs && d.ctxs[id].Refused? then d.(ctxs := Without(d.ctxs, id)) else d
    case AddRef(id) =>
      if id in d.ctxs && d.ctxs[id].Admitted? then
        d.(reference := d.reference + 1, ctxs := d.ctxs[id := Open(d.ctxs[id].isConfig, 0)])
      else d
    case Release(id) =>
      if id in d.ctxs && d.ctxs[id].Open? then d.(ctxs := d.ctxs[id := Closing(d.ctxs[id].isConfig)]) else d
    case ClearConfig(id) =>
      if id in d.ctxs && d.ctxs[id].Closing? then
        d.(configOpened := if d.ctxs[id].isConfig then false else d.configOpened, ctxs := d.ctxs[id := Leaving])
      else d
    case RelRef(id) =>
      if id !in d.ctxs || !d.ctxs[id].Leaving? then d
      else
        var d' := d.(ctxs := Without(d.ctxs, id));
        var ref := if d.reference == 0 then 0 else d.reference - 1;
        d'.(reference := ref, emptied := d.emptied || d.reference == 0, wakes := d.wakes + if ref == 0 then 1 else 0)
    case Read(id, count, len) =>
      if id in d.ctxs && d.ctxs[id].Open? && d.ctxs[id].off == 0 && count >= BUF then
        d.(ctxs := d.ctxs[id := Open(d.ctxs[id].isConfig, len)])
      else d
    case Write(id, count, parsed) =>
      if id !in d.ctxs || !d.ctxs[id].Open? || d.ctxs[id].off != 0 then d
      else if !d.ctxs[id].isConfig || count > BUF || parsed.None? then d
      else d.(config := parsed.value, ctxs := d.ctxs[id := Open(true, count)])
  }

  predicate HoldsConfig(c: Context) {
    (c.Admitted? || c.Open? || c.Closing?) && c.isConfig
  }

  predicate Referenced(c: Context) { c.Open? || c.Closing? || c.Leaving? }

  /** Contexts that hold the config role. */
  function Holders(d: Device): set<nat> { set id | id in d.ctxs && HoldsConfig(d.ctxs[id]) }

  /** Contexts past addref and not yet past relref. */
  function Users(d: Device): set<nat> { set id | id in d.ctxs && Referenced(d.ctxs[id]) }

  /** At most one config holder, and the flag says whether there is one. */
  ghost predicate RoleOk(d: Device) {
    && (forall i, j :: i in Holders(d) && j in Holders(d) ==> i == j)
    && (d.configOpened <==> exists i :: i in Holders(d))
  }

  ghost predicate Inv(d: Device) {
    RoleOk(d) && d.reference == |Users(d)| && !d.emptied
  }

  lemma StepKeepsRole(d: Device, a: Action)
    requires RoleOk(d)
    ensures RoleOk(Step(d, a))
  {
    var d' := Step(d, a);
    if a.Claim? && d'.configOpened && !d.configOpened {
      assert a.id in Holders(d');
      assert forall i :: i in Holders(d') && i != a.id ==> i in Holders(d);
    } else if a.ClearConfig? && a.id in d.ctxs && d.ctxs[a.id].Closing? {
      assert forall i :: i in Holders(d') <==> i in Holders(d) && i != a.id;
      assert a.id in Holders(d) <==> d.ctxs[a.id].isConfig;
    } else {
      assert forall i :: i in Holders(d') <==> i in Holders(d);
    }
  }

  lemma UsersAfter(d: Device, a: Action)
    ensures Users(Step(d, a)) ==
            if a.AddRef? && Step(d, a) != d then Users(d) + {a.id}
            else if a.RelRef? && Step(d, a) != d then Users(d) - {a.id}
            else Users(d)
  {
  }

  lemma StepKeepsCount(d: Device, a: Action)
    requires d.reference == |Users(d)| && !d.emptied
    ensures Step(d, a).reference == |Users(Step(d, a))| && !Step(d, a).emptied
  {
    UsersAfter(d, a);
    if a.AddRef? && Step(d, a) != d {
      assert a.id !in Users(d);
    } else if a.RelRef? && Step(d, a) != d {
      assert a.id in Users(d);
    }
  }

  lemma StepKeepsInv(d: Device, a: Action)
    requires Inv(d)
    ensures Inv(Step(d, a))
  {
    StepKeepsRole(d, a);
    StepKeepsCount(d, a);
  }

  ghost function Run(acts: seq<Action>): (d: Device)
    ensures Inv(d)
  {
    if acts == [] then Init()
    else
      var d := Run(acts[..|acts| - 1]);
      StepKeepsInv(d, acts[|acts| - 1]);
      Step(d, acts[|acts| - 1])
  }

  /** In every interleaving: at most one context holds the config role, the flag is set exactly
      while one does, the reference count is the number of contexts between addref and relref,
      and relref never finds the count at zero. */
  lemma {:induction false} OneWriterExactCount(acts: seq<Action>)
    ensures var d := Run(acts);
            && |Holders(d)| <= 1 && (d.configOpened <==> |Holders(d)| == 1)
            && d.reference == |Users(d)| && !d.emptied
  {
    var d := Run(acts);
    if d.configOpened {
      var i :| i in Holders(d);
      assert Holders(d) == {i};
    } else {
      assert Holders(d) == {};
    }
  }

  lemma RunSnoc(acts: seq<Action>, a: Action)
    ensures Run(acts + [a]) == Step(Run(acts), a)
  {
    assert (acts + [a])[..|acts|] == acts;
  }

  /** Whether file `id` was last opened for writing, from the calls made. */
  ghost function Asked(acts: seq<Action>, id: nat): bool {
    if acts == [] then false
    else
      var init, a := acts[..|acts| - 1], acts[|acts| - 1];
      if a.Enter? && a.id == id && id !in Run(init).ctxs then a.write else Asked(init, id)
  }

  /** How far an open has come agrees with what it asked for. */
  predicate Fits(c: Context, asked: bool) {
    match c
    case Claiming(write) => write == asked
    case Refused => asked
    case Admitted(isConfig) => isConfig == asked
    case Open(isConfig, _) => isConfig == asked
    case Closing(isConfig) => isConfig == asked
    case Leaving => true
  }

  lemma StepFits(d: Device, a: Action, id: nat, asked: bool)
    requires id in Step(d, a).ctxs && (id in d.ctxs ==> Fits(d.ctxs[id], asked))
    requires id !in d.ctxs && a.Enter? && a.id == id ==> a.write == asked
    ensures Fits(Step(d, a).ctxs[id], asked)
  {
  }

  /** A file holds the config role exactly if it was opened for writing, from the moment it is
      admitted to the moment the role is given back. */
  lemma {:induction false} RoleMatchesRequest(acts: seq<Action>, id: nat)
    requires id in Run(acts).ctxs
    ensures Fits(Run(acts).ctxs[id], Asked(acts, id))
  {
    var init, a := acts[..|acts| - 1], acts[|acts| - 1];
    if id in Run(init).ctxs {
      RoleMatchesRequest(init, id);
    }
    StepFits(Run(init), a, id, Asked(acts, id));
  }

  /** An open is refused exactly when it was made for writing and another file holds the role
      at that moment; otherwise it is admitted, with the role if and only if it was made for
      writing. Any steps of other files may come between the two. */
  lemma {:induction false} RefusedIffTaken(acts: seq<Action>, id: nat)
    requires id in Run(acts).ctxs && Run(acts).ctxs[id].Claiming?
    ensures Run(acts + [Claim(id)]).ctxs[id] ==
            if Asked(acts, id) && Holders(Run(acts)) != {} then Refused else Admitted(Asked(acts, id))
  {
    RoleMatchesRequest(acts, id);
    RunSnoc(acts, Claim(id));
    assert RoleOk(Run(acts));
  }

  /** The same for a whole call, from its arguments. */
  lemma {:induction false} OpenOutcome(acts: seq<Action>, id: nat, write: bool)
    requires id !in Run(acts).ctxs
    ensures var ctxs := Run(acts + [Enter(id, write)] + [Claim(id)]).ctxs;
            id in ctxs && ctxs[id] == if write && Holders(Run(acts)) != {} then Refused else Admitted(write)
  {
    var entered := acts + [Enter(id, write)];
    RunSnoc(acts, Enter(id, write));
    assert entered[..|entered| - 1] == acts;
    RefusedIffTaken(entered, id);
    assert Holders(Run(entered)) == Holders(Run(acts));
  }

  /** Open and close, or a refused open, run with no other step in between. */
  function OpenSteps(d: Device, id: nat, write: bool): Device {
    Step(Step(Step(d, Enter(id, write)), Claim(id)), AddRef(id))
  }

  function CloseSteps(d: Device, id: nat): Device {
    Step(Step(Step(d, Release(id)), ClearConfig(id)), RelRef(id))
  }

  lemma OpenAdds(d: Device, id: nat, write: bool)
    requires id !in d.ctxs && !(write && d.configOpened)
    ensures OpenSteps(d, id, write) ==
            d.(configOpened := d.configOpened || write, reference := d.reference + 1,
               ctxs := d.ctxs[id := Open(write, 0)])
  {
  }

  lemma CloseRemoves(d: Device, id: nat)
    requires id in d.ctxs && d.ctxs[id].Open? && d.reference > 0
    ensures CloseSteps(d, id) ==
            d.(configOpened := d.configOpened && !d.ctxs[id].isConfig, reference := d.reference - 1,
               ctxs := Without(d.ctxs, id), wakes := d.wakes + if d.reference == 1 then 1 else 0)
  {
    var d1 := Step(Step(d, Release(id)), ClearConfig(id));
    assert Without(d1.ctxs, id) == Without(d.ctxs, id);
  }

  /** Closing undoes opening, in every reachable state: an admitted open adds one context with
      the role it asked for and one reference, and its close leaves the device as it was, with
      one wake-up if nobody else uses it; a refused open leaves no trace. */
  lemma {:induction false} CloseUndoesOpen(acts: seq<Action>, id: nat, write: bool)
    requires id !in Run(acts).ctxs
    ensures var d := Run(acts);
            if write && Holders(d) != {} then
              Step(Step(Step(d, Enter(id, write)), Claim(id)), GiveUp(id)) == d
            else
              && OpenSteps(d, id, write).ctxs == d.ctxs[id := Open(write, 0)]
              && OpenSteps(d, id, write).reference == d.reference + 1
              && CloseSteps(OpenSteps(d, id, write), id) ==
                 d.(wakes := d.wakes + if Users(d) == {} then 1 else 0)
  {
    var d := Run(acts);
    assert d.configOpened <==> Holders(d) != {} by { assert RoleOk(d); }
    assert d.reference == |Users(d)| && (|Users(d)| == 0 <==> Users(d) == {});
    if write && Holders(d) != {} {
      assert Without(d.ctxs[id := Refused], id) == d.ctxs;
    } else {
      OpenAdds(d, id, write);
      CloseRemoves(OpenSteps(d, id, write), id);
      assert Without(d.ctxs[id := Open(write, 0)], id) == d.ctxs;
    }
  }

  /** The config value changes only through the sole holder of the role. */
  lemma {:induction false} OnlyTheHolderWrites(acts: seq<Action>, a: Action)
    requires Step(Run(acts), a).config != Run(acts).config
    ensures a.Write? && Holders(Run(acts)) == {a.id}
  {
    assert a.id in Holders(Run(acts));
  }

  /** Exactly when a well-formed write through an open file takes effect: the file holds the
      config role and nothing has been read or written through it before. */
  lemma {:induction false} WriteTakesEffectIff(acts: seq<Action>, id: nat, count: nat, value: int)
    requires 0 < count <= 64 && id in Run(acts).ctxs && Run(acts).ctxs[id].Open?
    ensures var d := Run(acts);
            var d' := Step(d, Write(id, count, Some(value)));
            && (d' != d <==> Holders(d) == {id} && d.ctxs[id].off == 0)
            && d'.config == if d' != d then value else d.config
  {
    var d := Run(acts);
    assert id in Holders(d) <==> d.ctxs[id].isConfig;
    assert id in Holders(d) ==> Holders(d) == {id};
  }

  /** Too short a read, too long a write, or one without a number changes nothing. */
  lemma {:induction false} MalformedChangesNothing(acts: seq<Action>, id: nat, n: nat, len: nat, w: Option<int>)
    ensures n < 64 ==> Run(acts + [Read(id, n, len)]) == Run(acts)
    ensures n > 64 || w.None? ==> Run(acts + [Write(id, n, w)]) == Run(acts)
  {
    RunSnoc(acts, Read(id, n, len));
    RunSnoc(acts, Write(id, n, w));
  }

  /** So the holder's second write through the same file is silently ignored, and so is its
      first write after a read. */
  lemma {:induction false} SecondWriteIsIgnored(acts: seq<Action>, id: nat, n: nat, v: int, m: nat, w: Option<int>)
    requires 0 < n <= 64 && id in Run(acts).ctxs && Run(acts).ctxs[id] == Open(true, 0)
    ensures var d1 := Step(Run(acts), Write(id, n, Some(v)));
            d1.config == v && Step(d1, Write(id, m, w)) == d1
    ensures var d1 := Step(Run(acts), Read(id, 64, n));
            Step(d1, Write(id, m, w)) == d1
  {
  }

  /** The last one out, and nobody else, wakes whoever waits for the device to be unused. */
  lemma {:induction false} LastOutWakes(acts: seq<Action>, id: nat)
    requires id in Run(acts).ctxs && Run(acts).ctxs[id].Leaving?
    ensures var d, d' := Run(acts), Step(Run(acts), RelRef(id));
            d'.wakes == d.wakes + 1 <==> Users(d') == {}
  {
    var d, d' := Run(acts), Step(Run(acts), RelRef(id));
    StepKeepsCount(d, RelRef(id));
    assert |Users(d')| == 0 <==> Users(d') == {};
  }
}
