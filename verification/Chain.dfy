/** The dispatcher program: the C chain over the .rodata config, against the plain "run in order" chain. */
module Chain {
  import opened Options
  import opened ProceedOn

  const MAX_PROGRAMS: nat := 10

  /** A return code together with the context (packet, maps) as the program left it. */
  datatype Outcome<C> = Outcome(ret: int, ctx: C)

  /** One program of the plain chain with its set of proceed-on codes. */
  datatype Link<!C> = Link(run: C -> Outcome<C>, codes: set<int>)

  /** The fields of the .rodata config that the chain reads. */
  datatype Config = Config(numProgs: nat, chainCallActions: seq<bv32>)

  ghost predicate ShiftSafe<C(!new)>(dt: DispatcherType, run: C -> Outcome<C>) {
    forall c :: Shiftable(dt, run(c).ret)
  }

  function DefaultVerdict(dt: DispatcherType): int {
    if dt.XDP? then 2 else 0
  }

  /** The body of every progN before an extension replaces it. */
  function Stub<C>(dt: DispatcherType): C -> Outcome<C> {
    c => Outcome(DispatcherReturn(dt), c)
  }

  /** NewXDPConfig and NewTCConfig followed by the loop that copies each slot's mask in. */
  method NewConfig(masks: seq<bv32>) returns (r: Option<Config>)
    ensures r.Some? <==> 1 <= |masks| <= 10
    ensures r.Some? ==> r.value == Config(|masks|, Padded(masks))
  {
    if |masks| < 1 || |masks| > MAX_PROGRAMS {
      return None;
    }
    var actions: seq<bv32> := seq(MAX_PROGRAMS, i => 0);
    for i := 0 to |masks|
      invariant |actions| == MAX_PROGRAMS
      invariant actions == masks[..i] + seq(MAX_PROGRAMS - i, j => 0)
    {
      actions := actions[i := masks[i]];
    }
    return Some(Config(|masks|, actions));
  }

  function Padded(masks: seq<bv32>): seq<bv32>
    requires |masks| <= MAX_PROGRAMS
  {
    masks + seq(MAX_PROGRAMS - |masks|, j => 0)
  }

  /** Run in order; go on exactly when the code is in the program's proceed-on set. */
  function RunChain<C>(dt: DispatcherType, chain: seq<Link<C>>, ctx: C): Outcome<C> {
    if chain == [] then Outcome(DefaultVerdict(dt), ctx)
    else
      var o := chain[0].run(ctx);
      if o.ret in chain[0].codes then RunChain(dt, chain[1..], o.ctx) else o
  }

  /** The plain chain a config and its slots stand for. */
  function LinksOf<C>(dt: DispatcherType, cfg: Config, slots: seq<C -> Outcome<C>>): (chain: seq<Link<C>>)
    requires cfg.numProgs <= |cfg.chainCallActions| && cfg.numProgs <= |slots|
    ensures |chain| == cfg.numProgs
  {
    seq(cfg.numProgs, i requires 0 <= i < cfg.numProgs => Link(slots[i], Codes(dt, cfg.chainCallActions[i])))
  }

  /** xdp_dispatcher and tc_dispatcher, whose unrolled steps differ only in the slot number. */
  method Dispatch<C(!new)>(dt: DispatcherType, cfg: Config, slots: seq<C -> Outcome<C>>, ctx: C)
      returns (o: Outcome<C>)
    requires |cfg.chainCallActions| == |slots| == MAX_PROGRAMS && cfg.numProgs <= MAX_PROGRAMS
    requires forall i :: 0 <= i < |slots| ==> ShiftSafe(dt, slots[i])
    ensures o == RunChain(dt, LinksOf(dt, cfg, slots), ctx)
  {
    hide Has;
    ghost var chain := LinksOf(dt, cfg, slots);
    var cur := ctx;
    var i := 0;
    while i < MAX_PROGRAMS
      invariant 0 <= i <= cfg.numProgs
      invariant RunChain(dt, chain, ctx) == RunChain(dt, chain[i..], cur)
    {
      if cfg.numProgs < i + 1 {
        break;
      }
      var step := slots[i](cur);
      assert ShiftSafe(dt, slots[i]);
      assert chain[i..][0] == chain[i] && chain[i..][1..] == chain[i + 1..];
      if !Proceeds(dt, cfg.chainCallActions[i], step.ret) {
        return step;
      }
      cur := step.ctx;
      i := i + 1;
    }
    return Outcome(DefaultVerdict(dt), cur);
  }

  /** The context that leaves the last program of the chain, if no program stops it. */
  function Through<C>(chain: seq<Link<C>>, ctx: C): Option<C> {
    if chain == [] then Some(ctx)
    else
      var o := chain[0].run(ctx);
      if o.ret in chain[0].codes then Through(chain[1..], o.ctx) else None
  }

  lemma {:induction false} RunConcat<C>(dt: DispatcherType, a: seq<Link<C>>, b: seq<Link<C>>, ctx: C)
    ensures RunChain(dt, a + b, ctx) ==
            match Through(a, ctx) case Some(c) => RunChain(dt, b, c) case None => RunChain(dt, a, ctx)
  {
    if a == [] {
      assert a + b == b;
    } else {
      var o := a[0].run(ctx);
      assert (a + b)[1..] == a[1..] + b;
      if o.ret in a[0].codes {
        RunConcat(dt, a[1..], b, o.ctx);
      }
    }
  }

  /** What a stub put back into a slot does to every packet: nothing when the slot's codes hold
      dispatcher_return, and otherwise every packet that reaches it leaves with that code. */
  lemma StubEffect<C>(dt: DispatcherType, a: seq<Link<C>>, codes: set<int>, b: seq<Link<C>>, ctx: C)
    ensures RunChain(dt, a + [Link(Stub(dt), codes)] + b, ctx) ==
            if Through(a, ctx).Some? && DispatcherReturn(dt) !in codes
            then Outcome(DispatcherReturn(dt), Through(a, ctx).value)
            else RunChain(dt, a + b, ctx)
  {
    var stub := [Link(Stub(dt), codes)];
    assert a + stub + b == a + (stub + b);
    RunConcat(dt, a, stub + b, ctx);
    RunConcat(dt, a, b, ctx);
    if Through(a, ctx).Some? {
      assert (stub + b)[0] == stub[0] && (stub + b)[1..] == b;
    }
  }

  ghost predicate Equivalent<C(!new)>(dt: DispatcherType, x: seq<Link<C>>, y: seq<Link<C>>) {
    forall c :: RunChain(dt, x, c) == RunChain(dt, y, c)
  }

  /** Every context that gets through a leaves b with dispatcher_return and unchanged. */
  ghost predicate LeavesAsStub<C(!new)>(dt: DispatcherType, a: seq<Link<C>>, b: seq<Link<C>>) {
    forall c :: Through(a, c).Some? ==>
                  RunChain(dt, b, Through(a, c).value) == Outcome(DispatcherReturn(dt), Through(a, c).value)
  }

  /** The stub is invisible on every packet exactly when dispatcher_return is among the slot's codes, or
      the rest of the chain treats every packet that reaches the slot just as the stub does. */
  lemma StubInvisible<C(!new)>(dt: DispatcherType, a: seq<Link<C>>, codes: set<int>, b: seq<Link<C>>)
    ensures Equivalent(dt, a + [Link(Stub(dt), codes)] + b, a + b) <==>
            DispatcherReturn(dt) in codes || LeavesAsStub(dt, a, b)
  {
    var withStub := a + [Link(Stub(dt), codes)] + b;
    if DispatcherReturn(dt) in codes || LeavesAsStub(dt, a, b) {
      forall c ensures RunChain(dt, withStub, c) == RunChain(dt, a + b, c) {
        StubEffect(dt, a, codes, b, c);
        RunConcat(dt, a, b, c);
      }
    } else if Equivalent(dt, withStub, a + b) {
      forall c | Through(a, c).Some?
        ensures RunChain(dt, b, Through(a, c).value) == Outcome(DispatcherReturn(dt), Through(a, c).value)
      {
        StubEffect(dt, a, codes, b, c);
        RunConcat(dt, a, b, c);
        assert RunChain(dt, withStub, c) == RunChain(dt, a + b, c);
      }
      assert false;
    }
  }

  /** attachXDP's and attachTC's default proceed-on lists, used when the caller names none. */
  /** A packet that every program passes on leaves with XDP_PASS or TC_ACT_OK; any other leaves with the code of the
      first program whose set does not hold it, as that program left it. */
  lemma {:induction false} VerdictIs<C>(dt: DispatcherType, chain: seq<Link<C>>, ctx: C)
    ensures Through(chain, ctx).Some? ==> RunChain(dt, chain, ctx) == Outcome(if dt.XDP? then 2 else 0, Through(chain, ctx).value)
    ensures Through(chain, ctx).None? ==>
              exists i, c :: 0 <= i < |chain| && Through(chain[..i], ctx) == Some(c)
                             && chain[i].run(c).ret !in chain[i].codes && RunChain(dt, chain, ctx) == chain[i].run(c)
  {
    if chain != [] {
      var o := chain[0].run(ctx);
      if o.ret in chain[0].codes {
        VerdictIs(dt, chain[1..], o.ctx);
        if Through(chain, ctx).None? {
          var i, c :| 0 <= i < |chain[1..]| && Through(chain[1..][..i], o.ctx) == Some(c)
                      && chain[1..][i].run(c).ret !in chain[1..][i].codes && RunChain(dt, chain[1..], o.ctx) == chain[1..][i].run(c);
          assert chain[..i + 1][1..] == chain[1..][..i] && chain[1..][i] == chain[i + 1];
          assert Through(chain[..i + 1], ctx) == Some(c);
        }
      } else {
        assert chain[..0] == [] && Through(chain[..0], ctx) == Some(ctx);
      }
    }
  }

  function DefaultProceedOn(dt: DispatcherType): seq<int> {
    if dt.XDP? then [2, 31] else [3, 30]
  }

  /** The default masks of the two dispatchers, and the code of their stubs. */
  lemma DefaultMasks<C>(dt: DispatcherType, ctx: C)
    ensures AllValid(dt, DefaultProceedOn(dt))
    ensures MaskOf(dt, DefaultProceedOn(dt)) == if dt.XDP? then 0x8000_0004 else 0x8000_0010
    ensures Stub(dt)(ctx) == Outcome(if dt.XDP? then 31 else 30, ctx)
  {
    var codes := DefaultProceedOn(dt);
    MaskOfTwo(dt, codes[0], codes[1]);
    BitValues();
    TwoBits();
  }

  lemma MaskOfTwo(dt: DispatcherType, c: int, d: int)
    requires ValidCode(dt, c) && ValidCode(dt, d) && AllValid(dt, [c, d])
    ensures MaskOf(dt, [c, d]) == SetBit(SetBit(0, c + Offset(dt)), d + Offset(dt))
  {
    hide SetBit;
    assert [c, d][..1] == [c] && [c][..0] == [];
    assert MaskOf(dt, [c]) == SetBit(MaskOf(dt, []), c + Offset(dt));
    assert MaskOf(dt, [c, d]) == SetBit(MaskOf(dt, [c]), d + Offset(dt));
  }

  lemma TwoBits()
    ensures (0 as bv32 | 0x4) | 0x8000_0000 == 0x8000_0004 && (0 as bv32 | 0x10) | 0x8000_0000 == 0x8000_0010
  {}

  /** With the default proceed-on list the window between detaching an extension and the rebuild is
      invisible: the dispatcher already behaves as the chain without the member. */
  lemma DefaultStubInvisible<C>(dt: DispatcherType, a: seq<Link<C>>, b: seq<Link<C>>, ctx: C)
    ensures AllValid(dt, DefaultProceedOn(dt))
    ensures var codes := Codes(dt, MaskOf(dt, DefaultProceedOn(dt)));
            RunChain(dt, a + [Link(Stub(dt), codes)] + b, ctx) == RunChain(dt, a + b, ctx)
  {
    MaskDecodable(dt, DefaultProceedOn(dt));
    assert DispatcherReturn(dt) in DefaultProceedOn(dt);
    hide Codes, MaskOf;
    StubEffect(dt, a, Codes(dt, MaskOf(dt, DefaultProceedOn(dt))), b, ctx);
  }
}
