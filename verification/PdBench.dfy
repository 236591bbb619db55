/**
 * The USB Power Delivery bench (sections 6.4.1 Capabilities and 6.4.2 Request of USB Power Delivery
 * R3.1): what it asks of a source, what it offers a sink, and which contracts are in force.
 *
 * `Port` is the bench's state as a value and `Next` what one callback or command makes of it;
 * `PdPort` is the code that does it in place.
 */
module PdBench {
  import opened Bytes

  const SLOTS: nat := 7
  const SAFE_MA: nat := 500
  const CABLE_MA: nat := 3000

  type Bits10 = n: int | 0 <= n < 0x400
  type Bits7 = n: int | 0 <= n < 0x80

  /** A power data object: voltage in 50 mV and current in 10 mA, or a PPS range in 100 mV and 50 mA. */
  datatype Pdo =
    | Fixed(v50: Bits10, i10: Bits10, dualData: bool, flags: nat)
    | Pps(min100: Byte, max100: Byte, i50: Bits7)
    | OtherSupply(raw: nat)

  /** What a slot never written holds. */
  const ZERO: Pdo := Fixed(0, 0, false, 0)

  /** A request: the position it names and what it asks for there. */
  datatype Rdo =
    | FixedRequest(pos: nat, operating10: Bits10, most10: Bits10)
    | PpsRequest(pos: nat, volt20: nat, operating50: Bits7)

  datatype Want =
    | Max
    | WantFixed(pos: nat, ma: nat)
    | WantPps(pos: nat, mv: nat, ma: nat)

  datatype Reply = Accept | Reject | Wait
  datatype DrAnswer = DrAccept | DrReject | DrNotSupported

  function Mv(p: Pdo): nat
    requires p.Fixed?
  {
    p.v50 * 50
  }

  function Ma(p: Pdo): nat
    requires p.Fixed?
  {
    p.i10 * 10
  }

  function Min(a: nat, b: nat): nat {
    if a <= b then a else b
  }

  function Units10(ma: nat): Bits10 {
    ma / 10 % 0x400
  }

  function RdoFixed(pos: nat, ma: nat): Rdo {
    FixedRequest(pos, Units10(ma), Units10(ma))
  }

  function RdoPps(pos: nat, mv: nat, ma: nat): Rdo {
    PpsRequest(pos, mv / 20 % 0x1000, ma / 50 % 0x80)
  }

  /** A request and the object it names. */
  datatype Named = Named(rdo: Rdo, pdo: Pdo)

  /** The request asks no more than the object gives. */
  predicate Asks(n: Named) {
    match n.rdo
    case FixedRequest(_, operating, most) => n.pdo.Fixed? && operating <= n.pdo.i10 && most <= n.pdo.i10
    case PpsRequest(_, volt20, operating) =>
      n.pdo.Pps? && operating <= n.pdo.i50 && n.pdo.min100 * 100 <= volt20 * 20 <= n.pdo.max100 * 100
  }

  /** What is asked, in the object's own units: at most its current, and for a range a voltage inside it. */
  predicate Inside(n: Named) {
    if n.rdo.FixedRequest? then
      n.pdo.Fixed? && n.pdo.i10 >= n.rdo.operating10 && n.pdo.i10 >= n.rdo.most10
    else
      && n.pdo.Pps? && n.pdo.i50 >= n.rdo.operating50
      && n.rdo.volt20 >= 5 * n.pdo.min100 && n.rdo.volt20 <= 5 * n.pdo.max100
  }

  lemma AsksInside(n: Named)
    ensures Asks(n) <==> Inside(n)
  {
  }

  /** The request stays within the object it names. */
  predicate Within(caps: seq<Pdo>, r: Rdo) {
    1 <= r.pos <= |caps| && Asks(Named(r, caps[r.pos - 1]))
  }

  // ---- Asking a source: pd max -----------------------------------------------------------------

  /** Whole milliwatts at no more than 3 A; nothing for what is not a fixed supply. */
  function Power(p: Pdo): int {
    if p.Fixed? then Mv(p) * Min(Ma(p), CABLE_MA) / 1000 else -1
  }

  /** The first position, among the first `n`, of the greatest power; 0 when there is no fixed supply. */
  function Best(caps: seq<Pdo>, n: nat): (pos: nat)
    requires n <= |caps|
    ensures pos <= n && (pos > 0 ==> caps[pos - 1].Fixed?)
  {
    if n == 0 then 0
    else
      var best := Best(caps, n - 1);
      if Power(caps[n - 1]) > (if best == 0 then -1 else Power(caps[best - 1])) then n else best
  }

  /** Half a milliwatt for each 50 mV times 10 mA, at no more than 3 A, rounded down; nothing is less than no power. */
  function Milliwatts(p: Pdo): int {
    if p.Fixed? then p.v50 * (if p.i10 < 300 then p.i10 else 300) / 2 else -1
  }

  lemma PowerIsMilliwatts(p: Pdo)
    ensures Power(p) == Milliwatts(p)
  {
    if p.Fixed? {
      var i := if p.i10 < 300 then p.i10 else 300;
      assert Min(Ma(p), CABLE_MA) == 10 * i;
      HalfUnits(p.v50, i);
    }
  }

  lemma HalfUnits(v: nat, i: nat)
    ensures v * 50 * (10 * i) / 1000 == v * i / 2
  {
    var vi := v * i;
    assert v * 50 * (10 * i) == 500 * vi;
  }

  /** Greatest, and first among equals. */
  ghost predicate IsFirstGreatest(caps: seq<Pdo>, pos: nat) {
    && 1 <= pos <= |caps| && caps[pos - 1].Fixed?
    && forall j | 0 <= j < |caps| ::
         && Milliwatts(caps[j]) <= Milliwatts(caps[pos - 1])
         && (j < pos - 1 ==> Milliwatts(caps[j]) < Milliwatts(caps[pos - 1]))
  }

  lemma FixedHasPower(p: Pdo)
    ensures p.Fixed? <==> Power(p) >= 0
  {
  }

  lemma {:induction false} BestIsFirstGreatest(caps: seq<Pdo>, n: nat)
    requires n <= |caps|
    ensures Best(caps, n) == 0 <==> forall j | 0 <= j < n :: !caps[j].Fixed?
    ensures Best(caps, n) > 0 ==> IsFirstGreatest(caps[..n], Best(caps, n))
  {
    hide Power, Milliwatts;
    if n > 0 {
      BestIsFirstGreatest(caps, n - 1);
      FixedHasPower(caps[n - 1]);
      assert caps[..n] == caps[..n - 1] + [caps[n - 1]];
      forall j | 0 <= j < n
        ensures caps[j].Fixed? <==> Power(caps[j]) >= 0
        ensures Power(caps[j]) == Milliwatts(caps[j])
      {
        FixedHasPower(caps[j]);
        PowerIsMilliwatts(caps[j]);
      }
    }
  }

  function RdoMaxOf(caps: seq<Pdo>): Rdo {
    var best := Best(caps, |caps|);
    if best == 0 then RdoFixed(1, SAFE_MA) else RdoFixed(best, Min(Ma(caps[best - 1]), CABLE_MA))
  }

  /** `rdo_max_locked`. */
  method RdoMax(caps: seq<Pdo>) returns (r: Rdo)
    ensures r == RdoMaxOf(caps)
  {
    hide Power;
    var bestPos := 1;
    var bestMw := -1;
    var bestMa := SAFE_MA;
    var i := 0;
    while i < |caps|
      invariant i <= |caps|
      invariant Best(caps, i) == 0 ==> bestPos == 1 && bestMw == -1 && bestMa == SAFE_MA
      invariant Best(caps, i) > 0 ==>
                  && bestPos == Best(caps, i) && bestMw == Power(caps[bestPos - 1])
                  && bestMa == Min(Ma(caps[bestPos - 1]), CABLE_MA)
    {
      FixedHasPower(caps[i]);
      PowerIs(caps[i]);
      if caps[i].Fixed? {
        var ma := Min(Ma(caps[i]), CABLE_MA);
        var mw := Mv(caps[i]) * ma / 1000;
        if mw > bestMw {
          bestMw := mw;
          bestPos := i + 1;
          bestMa := ma;
        }
      }
      i := i + 1;
    }
    r := RdoFixed(bestPos, bestMa);
  }

  lemma PowerIs(p: Pdo)
    ensures p.Fixed? ==> Power(p) == Mv(p) * Min(Ma(p), CABLE_MA) / 1000
    ensures !p.Fixed? ==> Power(p) == -1
  {
  }

  /**
   * `pd max` asks for the first position of the greatest power, at the lesser of its current and 3 A,
   * and stays within it; with no fixed supply on offer it asks position 1 for 500 mA, and does not.
   */
  lemma MaxIsWithin(caps: seq<Pdo>)
    requires caps != []
    ensures Within(caps, RdoMaxOf(caps)) <==> exists j :: 0 <= j < |caps| && caps[j].Fixed?
    ensures Within(caps, RdoMaxOf(caps)) ==>
              var r := RdoMaxOf(caps);
              IsFirstGreatest(caps, r.pos) && r.operating10 * 10 == Min(Ma(caps[r.pos - 1]), CABLE_MA)
    ensures !Within(caps, RdoMaxOf(caps)) ==> RdoMaxOf(caps) == FixedRequest(1, 50, 50)
  {
    hide Power;
    BestIsFirstGreatest(caps, |caps|);
    assert caps[..|caps|] == caps;
  }

  // ---- Asking a source: a choice -----------------------------------------------------------------

  /** The request for a choice, or nothing when the caps held do not allow it. */
  function RdoOf(caps: seq<Pdo>, w: Want): Option<Rdo> {
    if caps == [] then None
    else
      match w
      case Max => Some(RdoMaxOf(caps))
      case WantFixed(pos, ma) =>
        if pos < 1 || pos > |caps| || !caps[pos - 1].Fixed? || ma > Ma(caps[pos - 1]) then None
        else Some(RdoFixed(pos, if ma > 0 then ma else Min(Ma(caps[pos - 1]), CABLE_MA)))
      case WantPps(pos, mv, ma) =>
        if pos < 1 || pos > |caps| || !caps[pos - 1].Pps? then None
        else
          var p := caps[pos - 1];
          if mv < p.min100 * 100 || mv > p.max100 * 100 || ma > p.i50 * 50 then None
          else Some(RdoPps(pos, mv, ma))
  }

  /** `rdo_for_locked`. */
  method RdoFor(caps: seq<Pdo>, w: Want) returns (r: Option<Rdo>)
    ensures r == RdoOf(caps, w)
  {
    if |caps| == 0 {
      return None;
    }
    if w.Max? {
      var m := RdoMax(caps);
      return Some(m);
    }
    if w.pos < 1 || w.pos > |caps| {
      return None;
    }
    var pdo := caps[w.pos - 1];
    if w.WantFixed? {
      if !pdo.Fixed? || w.ma > Ma(pdo) {
        return None;
      }
      return Some(RdoFixed(w.pos, if w.ma > 0 then w.ma else Min(Ma(pdo), CABLE_MA)));
    }
    if !pdo.Pps? || w.mv < pdo.min100 * 100 || w.mv > pdo.max100 * 100 || w.ma > pdo.i50 * 50 {
      return None;
    }
    return Some(RdoPps(w.pos, w.mv, w.ma));
  }

  /** `asked`, rounded down to whole `unit`s. */
  predicate RoundedTo(units: nat, unit: nat, asked: nat) {
    units * unit <= asked < units * unit + unit
  }

  /** The request names the position chosen and asks what was chosen, rounded down; 0 mA is all there is up to 3 A. */
  predicate AsChosen(caps: seq<Pdo>, w: Want, r: Rdo)
    requires !w.Max? ==> 1 <= w.pos <= |caps|
  {
    match w
    case Max => true
    case WantFixed(pos, ma) =>
      && r.FixedRequest? && r.pos == pos && r.most10 == r.operating10
      && (ma > 0 ==> RoundedTo(r.operating10, 10, ma))
      && (ma == 0 ==> caps[pos - 1].Fixed? && (r.operating10 == caps[pos - 1].i10 || r.operating10 == 300)
                      && r.operating10 <= caps[pos - 1].i10 && r.operating10 <= 300)
    case WantPps(pos, mv, ma) =>
      r.PpsRequest? && r.pos == pos && RoundedTo(r.volt20, 20, mv) && RoundedTo(r.operating50, 50, ma)
  }

  /** Whatever is chosen, the request that comes of it is within its object, rounding included. */
  lemma ChoiceIsWithin(caps: seq<Pdo>, w: Want)
    requires RdoOf(caps, w).Some?
    requires w.Max? ==> exists j :: 0 <= j < |caps| && caps[j].Fixed?
    ensures var r := RdoOf(caps, w).value; Within(caps, r) && Inside(Named(r, caps[r.pos - 1]))
    ensures AsChosen(caps, w, RdoOf(caps, w).value)
  {
    hide RdoMaxOf, AsChosen, Asks, Inside;
    var r := RdoOf(caps, w).value;
    if 1 <= r.pos <= |caps| { AsksInside(Named(r, caps[r.pos - 1])); }
    match w
    case Max =>
      MaxIsWithin(caps);
      assert AsChosen(caps, w, RdoOf(caps, w).value) by { MaxAsChosen(caps, RdoMaxOf(caps)); }
    case WantFixed(pos, ma) => FixedIsWithin(caps, pos, ma);
    case WantPps(pos, mv, ma) => PpsIsWithin(caps, pos, mv, ma);
  }

  lemma MaxAsChosen(caps: seq<Pdo>, r: Rdo)
    ensures AsChosen(caps, Max, r)
  {
  }

  lemma FixedIsWithin(caps: seq<Pdo>, pos: nat, ma: nat)
    requires 1 <= pos <= |caps| && caps[pos - 1].Fixed? && ma <= Ma(caps[pos - 1])
    ensures var r := RdoFixed(pos, if ma > 0 then ma else Min(Ma(caps[pos - 1]), CABLE_MA));
            Within(caps, r) && AsChosen(caps, WantFixed(pos, ma), r)
  {
  }

  lemma PpsIsWithin(caps: seq<Pdo>, pos: nat, mv: nat, ma: nat)
    requires 1 <= pos <= |caps| && caps[pos - 1].Pps?
    requires var p := caps[pos - 1]; p.min100 * 100 <= mv <= p.max100 * 100 && ma <= p.i50 * 50
    ensures Within(caps, RdoPps(pos, mv, ma)) && AsChosen(caps, WantPps(pos, mv, ma), RdoPps(pos, mv, ma))
  {
    PpsRounds(caps[pos - 1].min100, caps[pos - 1].max100, mv);
    assert ma / 50 <= caps[pos - 1].i50 < 0x80;
  }

  /** What is held allows a choice: the position, the kind of object there, and enough of it. */
  predicate Allows(caps: seq<Pdo>, w: Want) {
    && caps != [] && (!w.Max? ==> 1 <= w.pos <= |caps|)
    && (w.WantFixed? ==> caps[w.pos - 1].Fixed? && 10 * caps[w.pos - 1].i10 >= w.ma)
    && (w.WantPps? ==> && caps[w.pos - 1].Pps? && 50 * caps[w.pos - 1].i50 >= w.ma
                       && 100 * caps[w.pos - 1].min100 <= w.mv <= 100 * caps[w.pos - 1].max100)
  }

  lemma AllowedIsRequested(caps: seq<Pdo>, w: Want)
    ensures RdoOf(caps, w).Some? <==> Allows(caps, w)
  {
    hide RdoMaxOf;
  }

  /** A range in 100 mV holds every one of its voltages rounded down to 20 mV. */
  lemma PpsRounds(low: Byte, high: Byte, mv: nat)
    requires low * 100 <= mv <= high * 100
    ensures mv / 20 < 0x1000 && low * 100 <= mv / 20 * 20 <= high * 100
  {
    assert low * 100 == low * 5 * 20;
  }

  // ---- Offering -----------------------------------------------------------------------------------

  /** `drd_bit`. */
  function DualData(p: Pdo, answer: DrAnswer): Pdo {
    if p.Fixed? then p.(dualData := !answer.DrNotSupported?) else p
  }

  datatype Arg = Arg(mv: nat, ma: nat)

  /** The first fixed object of the devicetree at that voltage. */
  function MaxAt(most: seq<Pdo>, mv: nat): (p: Option<Pdo>)
    ensures p.Some? ==> p.value in most && p.value.Fixed? && Mv(p.value) == mv
    decreases |most|
  {
    if most == [] then None
    else if most[0].Fixed? && Mv(most[0]) == mv then Some(most[0])
    else MaxAt(most[1..], mv)
  }

  /** `offer_pdo`: one `<mV>:<mA>` after an object at `prev`. */
  function OfferPdo(most: seq<Pdo>, a: Arg, prev: nat): Option<Pdo> {
    if prev == 0 && a.mv != 5000 then None
    else if a.mv <= prev then None
    else
      var p :- MaxAt(most, a.mv);
      if a.ma < 10 || a.ma > Ma(p) then None else Some(p.(i10 := Units10(a.ma)))
  }

  /** The devicetree's first fixed object at that voltage is the `k`-th. */
  predicate FirstAt(most: seq<Pdo>, mv: nat, k: nat) {
    && k < |most| && most[k].Fixed? && 50 * most[k].v50 == mv
    && forall j | 0 <= j < k :: most[j].Fixed? ==> 50 * most[j].v50 != mv
  }

  lemma {:induction false} MaxAtExactly(most: seq<Pdo>, mv: nat, k: nat)
    requires FirstAt(most, mv, k)
    ensures MaxAt(most, mv) == Some(most[k])
    decreases |most|
  {
    if k > 0 {
      assert forall j | 0 <= j < k - 1 :: most[1..][j] == most[j + 1];
      MaxAtExactly(most[1..], mv, k - 1);
    }
  }

  lemma {:induction false} MaxAtNowhere(most: seq<Pdo>, mv: nat)
    requires forall k | 0 <= k < |most| :: most[k].Fixed? ==> 50 * most[k].v50 != mv
    ensures MaxAt(most, mv) == None
    decreases |most|
  {
    if most != [] {
      MaxAtNowhere(most[1..], mv);
    }
  }

  /**
   * An object is offered exactly when it comes after the one before it, or is the first and at 5 V, the
   * devicetree has a fixed object at its voltage, and its current is 10 mA or more and no more than the first
   * such object's, whose copy with that current is what is offered.
   */
  lemma OfferPdoExactly(most: seq<Pdo>, a: Arg, prev: nat, k: nat)
    ensures FirstAt(most, a.mv, k) ==>
              OfferPdo(most, a, prev)
              == if (if prev == 0 then a.mv == 5000 else prev < a.mv) && 9 < a.ma <= 10 * most[k].i10
                 then Some(most[k].(i10 := a.ma / 10)) else None
    ensures (forall j | 0 <= j < |most| :: most[j].Fixed? ==> 50 * most[j].v50 != a.mv) ==>
              OfferPdo(most, a, prev).None?
  {
    if FirstAt(most, a.mv, k) {
      MaxAtExactly(most, a.mv, k);
    }
    if forall j | 0 <= j < |most| :: most[j].Fixed? ==> 50 * most[j].v50 != a.mv {
      MaxAtNowhere(most, a.mv);
    }
  }

  /** The whole list, or nothing when one of its objects is not valid. */
  function OfferOf(most: seq<Pdo>, args: seq<Arg>, n: nat): (r: Option<seq<Pdo>>)
    requires n <= |args|
    ensures r.Some? ==> |r.value| == n
  {
    if n == 0 then Some([])
    else
      var before :- OfferOf(most, args, n - 1);
      var p :- OfferPdo(most, args[n - 1], if n == 1 then 0 else args[n - 2].mv);
      Some(before + [p])
  }

  /** What the list promises a sink: 5 V first, voltages rising, nothing above the devicetree's. */
  ghost predicate Offerable(most: seq<Pdo>, offer: seq<Pdo>) {
    && (forall i | 0 <= i < |offer| ::
          && offer[i].Fixed? && offer[i].i10 >= 1
          && exists m :: m in most && m.Fixed? && m.v50 == offer[i].v50 && offer[i].i10 <= m.i10)
    && (offer != [] ==> Mv(offer[0]) == 5000)
    && forall i, j | 0 <= i < j < |offer| :: Mv(offer[i]) < Mv(offer[j])
  }

  lemma OfferPdoIs(most: seq<Pdo>, a: Arg, prev: nat)
    requires OfferPdo(most, a, prev).Some?
    ensures var p := OfferPdo(most, a, prev).value;
            && p.Fixed? && Mv(p) == a.mv > prev && (prev == 0 ==> a.mv == 5000) && p.i10 >= 1
            && exists m :: m in most && m.Fixed? && m.v50 == p.v50 && p.i10 <= m.i10
  {
    var m := MaxAt(most, a.mv).value;
    assert m in most;
  }

  lemma {:induction false} OfferIsOfferable(most: seq<Pdo>, args: seq<Arg>, n: nat)
    requires n <= |args| && OfferOf(most, args, n).Some?
    ensures Offerable(most, OfferOf(most, args, n).value)
    ensures forall i | 0 <= i < n :: Mv(OfferOf(most, args, n).value[i]) == args[i].mv
  {
    hide OfferPdo;
    if n > 0 {
      OfferIsOfferable(most, args, n - 1);
      var before := OfferOf(most, args, n - 1).value;
      var prev := if n == 1 then 0 else args[n - 2].mv;
      OfferPdoIs(most, args[n - 1], prev);
      forall i | 0 <= i < n - 1
        ensures Mv(before[i]) <= prev
      {
        assert n > 1 && Mv(before[n - 2]) == args[n - 2].mv;
      }
    }
  }

  /** With nothing but 5 V in the devicetree, as the bench insists at boot, a list has one object. */
  lemma OneObjectAtFiveVolts(most: seq<Pdo>, args: seq<Arg>)
    requires forall m | m in most && m.Fixed? :: Mv(m) == 5000
    requires OfferOf(most, args, |args|).Some?
    ensures |args| <= 1
  {
    OfferIsOfferable(most, args, |args|);
    var offer := OfferOf(most, args, |args|).value;
    assert |args| > 1 ==> Mv(offer[0]) < Mv(offer[1]);
  }

  /** The list loop of `cmd_srccaps`. */
  method BuildOffer(most: seq<Pdo>, args: seq<Arg>) returns (offer: Option<seq<Pdo>>)
    ensures offer == OfferOf(most, args, |args|)
  {
    var built: seq<Pdo> := [];
    var mv: nat := 0;
    var i := 0;
    while i < |args|
      invariant i <= |args| && OfferOf(most, args, i) == Some(built)
      invariant mv == if i == 0 then 0 else args[i - 1].mv
    {
      var p := OfferPdo(most, args[i], mv);
      if p.None? {
        StaysRefused(most, args, i + 1, |args|);
        return None;
      }
      mv := args[i].mv;
      built := built + [p.value];
      i := i + 1;
    }
    return Some(built);
  }

  lemma {:induction false} StaysRefused(most: seq<Pdo>, args: seq<Arg>, i: nat, n: nat)
    requires i <= n <= |args| && OfferOf(most, args, i).None?
    ensures OfferOf(most, args, n).None?
    decreases n
  {
    if i < n {
      StaysRefused(most, args, i, n - 1);
    }
  }

  // ---- Answering a sink ---------------------------------------------------------------------------

  /** `request_fits`: within a fixed object that is really there. */
  predicate Fits(p: Pdo, r: Rdo) {
    p != ZERO && p.Fixed? && r.FixedRequest? && r.operating10 <= p.i10
  }

  /** A fixed object that was written, for a fixed request within its current. */
  predicate Gives(p: Pdo, r: Rdo) {
    && p.Fixed? && (p.v50 > 0 || p.i10 > 0 || p.dualData || p.flags > 0)
    && r.FixedRequest? && p.i10 >= r.operating10
  }

  lemma FitsGives(p: Pdo, r: Rdo)
    ensures Fits(p, r) <==> Gives(p, r)
  {
  }

  // ---- The port ------------------------------------------------------------------------------------

  const NOTHING: Named := Named(FixedRequest(0, 0, 0), ZERO)

  /** As sink: the slots of the partner's capabilities, the choice, the request sent, the contract held. */
  datatype Sink = Sink(slots: seq<Pdo>, count: nat, want: Want, sent: Named, contract: bool, held: Named,
                       refresh: bool)

  /** As source: the offer, the capabilities sent, the request accepted, the contract in force. */
  datatype Supply = Supply(offer: seq<Pdo>, sentCaps: seq<Pdo>, answer: Reply, req: Named, srcContract: bool,
                           src: Named, drAnswer: DrAnswer)

  /** `asked`, `accepted` and `listed` remember a request sent, one accepted, an offer set by command. */
  datatype Port = Port(sink: Sink, supply: Supply, attached: bool, source: bool)

  datatype Event =
    | SetSourceCaps(pdos: seq<Pdo>)
    | GetRdo
    | Choose(want: Want)
    | KeepAlive(off: bool)
    | RoleSet(source: bool)
    | TransitionPs
    | EndContract
    | Detach
    | SourceHardReset
    | GetSourceCaps
    | CheckRequest(request: Rdo)
    | SetAnswer(answer: Reply)
    | SetOffer(args: seq<Arg>)
    | SetDrAnswer(dr: DrAnswer)

  predicate Shaped(p: Port) {
    |p.sink.slots| == SLOTS && p.sink.count <= SLOTS && 1 <= |p.supply.offer| <= SLOTS
  }

  function Caps(p: Port): seq<Pdo>
    requires Shaped(p)
  {
    p.sink.slots[..p.sink.count]
  }

  /** `fixed_ma` reads the same ten bits of any object. */
  function FieldMa(p: Pdo): nat {
    match p
    case Fixed(_, i10, _, _) => i10 * 10
    case Pps(min100, _, i50) => (i50 + min100 % 4 * 0x100) * 10
    case OtherSupply(raw) => raw % 0x400 * 10
  }

  /** An object's 32 bits, as sections 6.4.1.3 and 6.4.1.5 lay them out, flags and reserved bits apart. */
  function Raw(p: Pdo): nat {
    match p
    case Fixed(v50, i10, _, _) => i10 + 1024 * v50
    case Pps(min100, max100, i50) => i50 + 256 * min100 + 131072 * max100
    case OtherSupply(raw) => raw
  }

  /** Whatever the object is, its low ten bits are read as a fixed object's current. */
  lemma FieldIsTheLowTenBits(p: Pdo)
    ensures FieldMa(p) == 10 * (Raw(p) % 1024)
  {
    match p
    case Fixed(v50, i10, _, _) => LowTenBits(i10, v50);
    case Pps(min100, max100, i50) =>
      LowTenBits(i50 + 256 * (min100 % 4), min100 / 4 + 128 * max100);
      assert min100 == min100 % 4 + 4 * (min100 / 4);
    case OtherSupply(_) =>
  }

  lemma LowTenBits(low: nat, high: nat)
    requires low < 1024
    ensures (low + 1024 * high) % 1024 == low
  {
  }

  /** A request due again for the contract held, with its object still in its place. */
  predicate Renews(p: Port)
    requires Shaped(p)
  {
    var cpos := p.sink.held.rdo.pos;
    p.sink.refresh && p.sink.contract && 1 <= cpos <= p.sink.count && p.sink.slots[cpos - 1] == p.sink.held.pdo
  }

  /** The request `policy_get_rdo` sends: the contract again, the choice, or vSafe5V. */
  function RequestOf(p: Port): (r: Rdo)
    requires Shaped(p)
    ensures 1 <= r.pos <= SLOTS
  {
    var chosen := RdoOf(Caps(p), p.sink.want);
    if Renews(p) then p.sink.held.rdo
    else if chosen.Some? then chosen.value
    else RdoFixed(1, if p.sink.count > 0 then Min(SAFE_MA, FieldMa(p.sink.slots[0])) else SAFE_MA)
  }

  /** The object a partner's request names among the capabilities last sent. */
  function NamedBy(p: Port, r: Rdo): Pdo {
    if 1 <= r.pos <= |p.supply.sentCaps| then p.supply.sentCaps[r.pos - 1] else ZERO
  }

  /** The answer the host set, but never Accept for what does not fit. */
  function ReplyTo(p: Port, r: Rdo): Reply {
    if p.supply.answer.Accept? && !Fits(NamedBy(p, r), r) then Reject else p.supply.answer
  }

  /** The list `pd srccaps` sets, if it is valid. */
  function NewOffer(most: seq<Pdo>, p: Port, args: seq<Arg>): (r: Option<seq<Pdo>>)
    ensures r.Some? ==> 1 <= |r.value| <= SLOTS
  {
    if !(1 <= |args| <= SLOTS) then None
    else
      var list :- OfferOf(most, args, |args|);
      Some(list[0 := DualData(list[0], p.supply.drAnswer)])
  }

  function Next(most: seq<Pdo>, p: Port, ev: Event): (p': Port)
    requires Shaped(p)
    ensures Shaped(p')
  {
    match ev
    case SetSourceCaps(pdos) =>
      var n := Min(|pdos|, SLOTS);
      p.(sink := p.sink.(slots := pdos[..n] + p.sink.slots[n..], count := n))
    case GetRdo =>
      var r := RequestOf(p);
      p.(sink := p.sink.(refresh := false, sent := Named(r, p.sink.slots[r.pos - 1])))
    case Choose(w) => if !p.source && RdoOf(Caps(p), w).Some? then p.(sink := p.sink.(want := w)) else p
    case KeepAlive(off) => p.(sink := p.sink.(refresh := p.sink.contract && p.sink.held.pdo.Pps? && !off))
    case RoleSet(source) =>
      if source then Port(Ended(p.sink).(count := 0), p.supply, true, true)
      else Port(p.sink, p.supply.(srcContract := false), true, false)
    case TransitionPs =>
      if p.source then p.(supply := p.supply.(srcContract := true, src := p.supply.req))
      else p.(sink := p.sink.(contract := true, held := p.sink.sent))
    case EndContract => p.(sink := Ended(p.sink))
    case Detach => Detached(p)
    case SourceHardReset => p.(supply := p.supply.(srcContract := false))
    case GetSourceCaps => p.(supply := p.supply.(sentCaps := p.supply.offer))
    case CheckRequest(r) =>
      if ReplyTo(p, r).Accept? then p.(supply := p.supply.(req := Named(r, NamedBy(p, r)))) else p
    case SetAnswer(answer) => p.(supply := p.supply.(answer := answer))
    case SetOffer(args) =>
      var list := NewOffer(most, p, args);
      if list.Some? then p.(supply := p.supply.(offer := list.value)) else p
    case SetDrAnswer(dr) =>
      p.(supply := p.supply.(drAnswer := dr, offer := p.supply.offer[0 := DualData(p.supply.offer[0], dr)]))
  }

  function Detached(p: Port): Port {
    Port(Ended(p.sink).(count := 0), p.supply.(srcContract := false), false, false)
  }

  function Ended(k: Sink): Sink {
    k.(contract := false, refresh := false)
  }

  /** At boot the bench offers what the devicetree lists. */
  function Boot(most: seq<Pdo>): (p: Port)
    requires 1 <= |most| <= SLOTS
    ensures Shaped(p)
  {
    Port(Sink([ZERO, ZERO, ZERO, ZERO, ZERO, ZERO, ZERO], 0, Max, NOTHING, false, NOTHING, false),
         Supply(most, [], Accept, NOTHING, false, NOTHING, DrAccept), false, false)
  }

  // ---- Every reachable state ------------------------------------------------------------------------

  /** Nothing offered is above the devicetree's object at that voltage. */
  ghost predicate Covered(most: seq<Pdo>, offer: seq<Pdo>) {
    forall p | p in offer && p.Fixed? :: exists m :: m in most && m.Fixed? && m.v50 == p.v50 && p.i10 <= m.i10
  }

  function Run(most: seq<Pdo>, events: seq<Event>): (p: Port)
    requires 1 <= |most| <= SLOTS
    ensures Shaped(p)
    decreases |events|
  {
    if events == [] then Boot(most) else Next(most, Run(most, Before(events)), Last(events))
  }

  function Before(events: seq<Event>): seq<Event>
    requires events != []
  {
    events[..|events| - 1]
  }

  function Last(events: seq<Event>): Event
    requires events != []
  {
    events[|events| - 1]
  }

  lemma DualDataKeepsOffer(most: seq<Pdo>, offer: seq<Pdo>, answer: DrAnswer)
    requires offer != []
    ensures var o := offer[0 := DualData(offer[0], answer)];
            && (Covered(most, offer) ==> Covered(most, o))
            && (Offerable(most, offer) ==> Offerable(most, o))
  {
    var o := offer[0 := DualData(offer[0], answer)];
    forall i | 0 <= i < |o|
      ensures o[i].Fixed? <==> offer[i].Fixed?
      ensures o[i].Fixed? ==> o[i].v50 == offer[i].v50 && o[i].i10 == offer[i].i10
    {
    }
    if Covered(most, offer) {
      forall p | p in o && p.Fixed?
        ensures exists m :: m in most && m.Fixed? && m.v50 == p.v50 && p.i10 <= m.i10
      {
        var i :| 0 <= i < |o| && o[i] == p;
        assert offer[i] in offer;
      }
    }
  }

  lemma OfferableIsCovered(most: seq<Pdo>, offer: seq<Pdo>)
    requires Offerable(most, offer)
    ensures Covered(most, offer)
  {
    forall p | p in offer && p.Fixed?
      ensures exists m :: m in most && m.Fixed? && m.v50 == p.v50 && p.i10 <= m.i10
    {
      var i :| 0 <= i < |offer| && offer[i] == p;
    }
  }

  // ---- As sink: what is asked, and what is held ---------------------------------------------------

  /** Whether the capabilities held bear out a request made afresh: the guard of each way to make one. */
  predicate Backed(p: Port)
    requires Shaped(p)
  {
    if RdoOf(Caps(p), p.sink.want).Some? then
      !p.sink.want.Max? || exists j :: 0 <= j < p.sink.count && p.sink.slots[j].Fixed?
    else
      p.sink.slots[0].Fixed? && (p.sink.count > 0 || p.sink.slots[0].i10 >= Units10(SAFE_MA))
  }

  lemma RequestAsks(p: Port)
    requires Shaped(p)
    ensures Asks(Named(RequestOf(p), p.sink.slots[RequestOf(p).pos - 1]))
            <==> if Renews(p) then Asks(p.sink.held) else Backed(p)
  {
    var caps := Caps(p);
    if Renews(p) {
    } else if RdoOf(caps, p.sink.want).Some? {
      assert forall j | 0 <= j < |caps| :: caps[j] == p.sink.slots[j];
      if p.sink.want.Max? {
        MaxIsWithin(caps);
      } else {
        ChoiceIsWithin(caps, p.sink.want);
      }
    }
  }

  /** Only a request made changes the one sent, only the supply moving the one held. */
  lemma SinkStep(most: seq<Pdo>, p: Port, ev: Event)
    requires Shaped(p)
    ensures var sink := Next(most, p, ev).sink;
            && sink.sent == (if ev.GetRdo? then Named(RequestOf(p), p.sink.slots[RequestOf(p).pos - 1])
                             else p.sink.sent)
            && sink.held == (if ev.TransitionPs? && !p.source then p.sink.sent else p.sink.held)
  {
    hide RequestOf, RdoOf, NewOffer, ReplyTo;
  }

  /** Whether the last request asked for was backed when it was made, or renewed one that was. */
  predicate SentBacked(most: seq<Pdo>, events: seq<Event>)
    requires 1 <= |most| <= SLOTS
    decreases |events|
  {
    if events == [] then true
    else if Last(events).GetRdo? then
      var p := Run(most, Before(events));
      if Renews(p) then HeldBacked(most, Before(events)) else Backed(p)
    else SentBacked(most, Before(events))
  }

  /** Whether the request the contract was made of was. */
  predicate HeldBacked(most: seq<Pdo>, events: seq<Event>)
    requires 1 <= |most| <= SLOTS
    decreases |events|
  {
    if events == [] then true
    else if Last(events).TransitionPs? && !Run(most, Before(events)).source then SentBacked(most, Before(events))
    else HeldBacked(most, Before(events))
  }

  /**
   * In every run of callbacks and commands, in whatever order: the request last sent, and the one the
   * contract was made of, ask no more than the objects they name give, exactly if they were backed.
   */
  lemma {:induction false} SinkKeepsWithin(most: seq<Pdo>, events: seq<Event>)
    requires 1 <= |most| <= SLOTS
    ensures Inside(Run(most, events).sink.sent) <==> SentBacked(most, events)
    ensures Inside(Run(most, events).sink.held) <==> HeldBacked(most, events)
    decreases |events|
  {
    hide Asks, Inside, RequestOf, Renews, Backed, Next;
    AsksInside(Run(most, events).sink.sent);
    AsksInside(Run(most, events).sink.held);
    if events == [] {
      NothingAsks();
    } else {
      SinkKeepsWithin(most, Before(events));
      AsksInside(Run(most, Before(events)).sink.sent);
      AsksInside(Run(most, Before(events)).sink.held);
      SinkStep(most, Run(most, Before(events)), Last(events));
      if Last(events).GetRdo? {
        RequestAsks(Run(most, Before(events)));
      }
    }
  }

  lemma NothingAsks()
    ensures Asks(NOTHING) && !Fits(NOTHING.pdo, NOTHING.rdo)
  {
  }

  /** With vSafe5V held first, as section 6.4.1 demands of a source, every request is backed. */
  lemma {:induction false} SafeFirstIsBacked(most: seq<Pdo>, events: seq<Event>)
    requires 1 <= |most| <= SLOTS
    requires forall k | 0 <= k < |events| && events[k].GetRdo? ::
               var sink := Run(most, events[..k]).sink; sink.count >= 1 && sink.slots[0].Fixed?
    ensures SentBacked(most, events) && HeldBacked(most, events)
    decreases |events|
  {
    hide Run, RdoOf;
    if events != [] {
      var before := Before(events);
      assert forall k | 0 <= k < |before| :: before[..k] == events[..k] && before[k] == events[k];
      SafeFirstIsBacked(most, before);
    }
  }

  // ---- As source: what is offered, and what is accepted --------------------------------------------

  /** What each step makes of the capabilities sent, the answer, and the requests remembered. */
  lemma SupplyStep(most: seq<Pdo>, p: Port, ev: Event)
    requires Shaped(p)
    ensures var supply := Next(most, p, ev).supply;
            && supply.sentCaps == (if ev.GetSourceCaps? then p.supply.offer else p.supply.sentCaps)
            && supply.answer == (if ev.SetAnswer? then ev.answer else p.supply.answer)
            && supply.req == (if ev.CheckRequest? && ReplyTo(p, ev.request).Accept?
                              then Named(ev.request, NamedBy(p, ev.request)) else p.supply.req)
            && supply.src == (if ev.TransitionPs? && p.source then p.supply.req else p.supply.src)
  {
    hide RequestOf, RdoOf, NewOffer, ReplyTo, NamedBy;
  }

  /** The offer when capabilities were last sent. */
  function LastSent(most: seq<Pdo>, events: seq<Event>): seq<Pdo>
    requires 1 <= |most| <= SLOTS
    decreases |events|
  {
    if events == [] then []
    else if Last(events).GetSourceCaps? then Run(most, Before(events)).supply.offer
    else LastSent(most, Before(events))
  }

  /** The answer the host last set. */
  function LastAnswer(events: seq<Event>): Reply
    decreases |events|
  {
    if events == [] then Accept
    else if Last(events).SetAnswer? then Last(events).answer
    else LastAnswer(Before(events))
  }

  /** Some list was set by command. */
  predicate Listed(most: seq<Pdo>, events: seq<Event>)
    requires 1 <= |most| <= SLOTS
    decreases |events|
  {
    events != []
    && (Listed(most, Before(events))
        || (Last(events).SetOffer? && NewOffer(most, Run(most, Before(events)), Last(events).args).Some?))
  }

  /** Some request was accepted. */
  predicate Accepted(most: seq<Pdo>, events: seq<Event>)
    requires 1 <= |most| <= SLOTS
    decreases |events|
  {
    events != []
    && (Accepted(most, Before(events))
        || (Last(events).CheckRequest? && ReplyTo(Run(most, Before(events)), Last(events).request).Accept?))
  }

  /** Some request had been accepted when the supply last moved. */
  predicate MovedAccepted(most: seq<Pdo>, events: seq<Event>)
    requires 1 <= |most| <= SLOTS
    decreases |events|
  {
    if events == [] then false
    else if Last(events).TransitionPs? && Run(most, Before(events)).source then Accepted(most, Before(events))
    else MovedAccepted(most, Before(events))
  }

  /** Nothing is ever offered above the devicetree, and a list set by command starts at 5 V and rises. */
  lemma {:induction false} OfferStaysCovered(most: seq<Pdo>, events: seq<Event>)
    requires 1 <= |most| <= SLOTS
    ensures Covered(most, Run(most, events).supply.offer) && Covered(most, LastSent(most, events))
    ensures Listed(most, events) ==> Offerable(most, Run(most, events).supply.offer)
    decreases |events|
  {
    hide Offerable, Covered, RequestOf, RdoOf, OfferOf, ReplyTo;
    if events == [] {
      BootIsCovered(most);
    } else {
      OfferStaysCovered(most, Before(events));
      var supply := Run(most, Before(events)).supply;
      match Last(events)
      case SetOffer(args) =>
        if NewOffer(most, Run(most, Before(events)), args).Some? {
          var list := OfferOf(most, args, |args|).value;
          OfferIsOfferable(most, args, |args|);
          OfferableIsCovered(most, list);
          DualDataKeepsOffer(most, list, supply.drAnswer);
        }
      case SetDrAnswer(dr) => DualDataKeepsOffer(most, supply.offer, dr);
      case _ =>
    }
  }

  lemma BootIsCovered(most: seq<Pdo>)
    requires 1 <= |most| <= SLOTS
    ensures Covered(most, Boot(most).supply.offer) && Covered(most, [])
  {
    forall p | p in most && p.Fixed?
      ensures exists m :: m in most && m.Fixed? && m.v50 == p.v50 && p.i10 <= m.i10
    {
      assert p in most;
    }
  }

  /**
   * In every run of callbacks and commands, in whatever order: the request remembered, and the one the
   * source contract was made of, fit the objects they name exactly if one had been accepted by then.
   */
  lemma {:induction false} ContractFitsOnceAccepted(most: seq<Pdo>, events: seq<Event>)
    requires 1 <= |most| <= SLOTS
    ensures var supply := Run(most, events).supply;
            && (Fits(supply.req.pdo, supply.req.rdo) <==> Accepted(most, events))
            && (Fits(supply.src.pdo, supply.src.rdo) <==> MovedAccepted(most, events))
    decreases |events|
  {
    hide Fits, NamedBy, Next;
    if events == [] {
      NothingAsks();
    } else {
      ContractFitsOnceAccepted(most, Before(events));
      SupplyStep(most, Run(most, Before(events)), Last(events));
    }
  }

  /** A supply that moves before any request was accepted puts a contract in force that fits nothing. */
  lemma ContractBeforeAcceptance(most: seq<Pdo>)
    requires 1 <= |most| <= SLOTS
    ensures var supply := Run(most, [RoleSet(true), TransitionPs]).supply;
            supply.srcContract && !Fits(supply.src.pdo, supply.src.rdo)
  {
    hide Run, Next, Fits;
    var turned := Next(most, Boot(most), RoleSet(true));
    TwoSteps(most, RoleSet(true), TransitionPs);
    RoleIsTaken(most, Boot(most));
    SupplyStep(most, Boot(most), RoleSet(true));
    SupplyStep(most, turned, TransitionPs);
    ContractStep(most, turned, TransitionPs);
    NothingAsks();
  }

  lemma RoleIsTaken(most: seq<Pdo>, p: Port)
    requires Shaped(p)
    ensures Next(most, p, RoleSet(true)).source
  {
    hide RequestOf, RdoOf, NewOffer, ReplyTo, NamedBy;
  }

  lemma TwoSteps(most: seq<Pdo>, a: Event, b: Event)
    requires 1 <= |most| <= SLOTS
    ensures Run(most, [a, b]) == Next(most, Next(most, Boot(most), a), b)
  {
    hide Next, Boot;
    assert Before([a, b]) == [a] && Before([a]) == [];
    assert Run(most, [a]) == Next(most, Run(most, []), a);
  }

  lemma {:induction false} SentIsRemembered(most: seq<Pdo>, events: seq<Event>)
    requires 1 <= |most| <= SLOTS
    ensures Run(most, events).supply.sentCaps == LastSent(most, events)
    ensures Run(most, events).supply.answer == LastAnswer(events)
    decreases |events|
  {
    hide ReplyTo, NamedBy, Next;
    if events != [] {
      SentIsRemembered(most, Before(events));
      SupplyStep(most, Run(most, Before(events)), Last(events));
    }
  }

  /**
   * After any run, a request is accepted exactly when the host last set Accept and it fits the object it
   * names among the capabilities last sent, whatever was set since; and then the devicetree lists that
   * voltage with at least the current asked for.
   */
  lemma NoRequestAboveTheCaps(most: seq<Pdo>, events: seq<Event>, r: Rdo)
    requires 1 <= |most| <= SLOTS
    ensures var caps, accepted := LastSent(most, events), ReplyTo(Run(most, events), r).Accept?;
            && (accepted <==> LastAnswer(events).Accept? && 1 <= r.pos <= |caps| && Gives(caps[r.pos - 1], r))
            && (accepted ==> exists m :: m in most && m.Fixed? && m.v50 == caps[r.pos - 1].v50
                                          && r.operating10 <= m.i10)
  {
    hide Run, LastSent, LastAnswer;
    SentIsRemembered(most, events);
    OfferStaysCovered(most, events);
    var caps := LastSent(most, events);
    if 1 <= r.pos <= |caps| { FitsGives(caps[r.pos - 1], r); }
    if ReplyTo(Run(most, events), r).Accept? {
      assert caps[r.pos - 1] in caps;
    }
  }

  // ---- The port as its history ------------------------------------------------------------------------

  /** Whether a partner is attached, and whether the bench is its source: the last role taken, until a detach. */
  function RoleOf(events: seq<Event>): Option<bool>
    decreases |events|
  {
    if events == [] then None
    else
      match Last(events)
      case RoleSet(source) => Some(source)
      case Detach => None
      case _ => RoleOf(Before(events))
  }

  /** The partner's capabilities: the last it sent, seven at most, until a detach or a change to source. */
  function CapsOf(events: seq<Event>): seq<Pdo>
    decreases |events|
  {
    if events == [] then []
    else
      match Last(events)
      case SetSourceCaps(pdos) => if |pdos| > 7 then pdos[..7] else pdos
      case Detach => []
      case RoleSet(source) => if source then [] else CapsOf(Before(events))
      case _ => CapsOf(Before(events))
  }

  /** The last choice that was valid when made, and made as no source; at first the greatest power. */
  function ChoiceOf(events: seq<Event>): Want
    decreases |events|
  {
    if events == [] then Max
    else if Last(events).Choose? && RoleOf(Before(events)) != Some(true)
            && Allows(CapsOf(Before(events)), Last(events).want) then Last(events).want
    else ChoiceOf(Before(events))
  }

  /** What is offered: the devicetree, or the last valid list of one to seven, with the answer's dual-role bit first. */
  function OfferNow(most: seq<Pdo>, events: seq<Event>): seq<Pdo>
    requires 1 <= |most| <= SLOTS
    decreases |events|
  {
    if events == [] then most
    else
      var before, last := OfferNow(most, Before(events)), Last(events);
      if last.SetOffer? && 0 < |last.args| < 8 && OfferOf(most, last.args, |last.args|).Some? then
        Answering(OfferOf(most, last.args, |last.args|).value, AnswerNow(Before(events)))
      else if last.SetDrAnswer? then Answering(before, last.dr)
      else before
  }

  function AnswerNow(events: seq<Event>): DrAnswer
    decreases |events|
  {
    if events == [] then DrAccept else if Last(events).SetDrAnswer? then Last(events).dr else AnswerNow(Before(events))
  }

  function Answering(offer: seq<Pdo>, answer: DrAnswer): (o: seq<Pdo>)
    ensures |o| == |offer|
  {
    if offer != [] && offer[0].Fixed? then offer[0 := offer[0].(dualData := answer != DrNotSupported)] else offer
  }

  /** The request is due again: the keep-alive came due on a range contract, and nothing was asked or ended since. */
  predicate RefreshDue(most: seq<Pdo>, events: seq<Event>)
    requires 1 <= |most| <= SLOTS
    decreases |events|
  {
    if events == [] then false
    else
      match Last(events)
      case KeepAlive(off) =>
        !off && Run(most, Before(events)).sink.contract && Run(most, Before(events)).sink.held.pdo.Pps?
      case GetRdo => false
      case _ => !EndsSink(Last(events)) && RefreshDue(most, Before(events))
  }

  /** One step of everything the history tells. */
  lemma StepOfHistory(most: seq<Pdo>, p: Port, ev: Event)
    requires Shaped(p)
    ensures var p' := Next(most, p, ev);
            && (p'.attached <==> ev.RoleSet? || (p.attached && !ev.Detach?))
            && (p'.source <==> if ev.RoleSet? then ev.source else p.source && !ev.Detach?)
            && Caps(p') == (if ev.SetSourceCaps? then (if |ev.pdos| > 7 then ev.pdos[..7] else ev.pdos)
                            else if ev.Detach? || ev == RoleSet(true) then [] else Caps(p))
            && p'.sink.want == (if ev.Choose? && !p.source && RdoOf(Caps(p), ev.want).Some? then ev.want
                                else p.sink.want)
            && (p'.sink.refresh <==> if ev.KeepAlive? then !ev.off && p.sink.contract && p.sink.held.pdo.Pps?
                                     else !ev.GetRdo? && !EndsSink(ev) && p.sink.refresh)
  {
    hide RequestOf, RdoOf, NewOffer, ReplyTo, NamedBy;
    var p' := Next(most, p, ev);
    if ev.SetSourceCaps? {
      assert Caps(p') == if |ev.pdos| > 7 then ev.pdos[..7] else ev.pdos;
    } else {
      assert p'.sink.slots == p.sink.slots;
    }
  }

  lemma StepOfOffer(most: seq<Pdo>, p: Port, ev: Event)
    requires Shaped(p)
    ensures var supply := Next(most, p, ev).supply;
            && supply.drAnswer == (if ev.SetDrAnswer? then ev.dr else p.supply.drAnswer)
            && supply.offer == (if ev.SetOffer? && 0 < |ev.args| < 8 && OfferOf(most, ev.args, |ev.args|).Some?
                                then Answering(OfferOf(most, ev.args, |ev.args|).value, p.supply.drAnswer)
                                else if ev.SetDrAnswer? then Answering(p.supply.offer, ev.dr)
                                else p.supply.offer)
  {
    hide RequestOf, RdoOf, OfferOf, ReplyTo, NamedBy;
    assert forall o: seq<Pdo>, a: DrAnswer :: o != [] ==> Answering(o, a) == o[0 := DualData(o[0], a)];
  }

  /** After any run the port is what its history says: role, capabilities held, choice, offer, and what is due. */
  lemma {:induction false} PortIsItsHistory(most: seq<Pdo>, events: seq<Event>)
    requires 1 <= |most| <= SLOTS
    ensures var p := Run(most, events);
            && p.attached == RoleOf(events).Some? && p.source == (RoleOf(events) == Some(true))
            && Caps(p) == CapsOf(events) && p.sink.want == ChoiceOf(events)
            && p.supply.offer == OfferNow(most, events) && p.supply.drAnswer == AnswerNow(events)
            && p.sink.refresh == RefreshDue(most, events)
    decreases |events|
  {
    hide Next, RdoOf, OfferOf, Caps, EndsSink, Allows;
    if events == [] {
      NothingYet(most);
    } else {
      PortIsItsHistory(most, Before(events));
      StepOfHistory(most, Run(most, Before(events)), Last(events));
      StepOfOffer(most, Run(most, Before(events)), Last(events));
      EndsSinkIs(Last(events));
      if Last(events).Choose? { AllowedIsRequested(CapsOf(Before(events)), Last(events).want); }
    }
  }

  lemma NothingYet(most: seq<Pdo>)
    requires 1 <= |most| <= SLOTS
    ensures Caps(Boot(most)) == []
  {
  }

  lemma EndsSinkIs(ev: Event)
    ensures EndsSink(ev) <==> ev.Detach? || ev.EndContract? || ev == RoleSet(true)
  {
  }

  /** A request is the contract's again exactly when that is due and its object is still held where it names it. */
  lemma RequestRenewsExactly(most: seq<Pdo>, events: seq<Event>)
    requires 1 <= |most| <= SLOTS
    ensures var caps, held := CapsOf(events), Run(most, events).sink.held;
            var again := && RefreshDue(most, events) && Run(most, events).sink.contract
                         && 0 < held.rdo.pos <= |caps| && caps[held.rdo.pos - 1] == held.pdo;
            RequestOf(Run(most, events))
            == if again then held.rdo
               else if RdoOf(caps, ChoiceOf(events)).Some? then RdoOf(caps, ChoiceOf(events)).value
               else if caps == [] then FixedRequest(1, 50, 50)
               else RdoFixed(1, if FieldMa(caps[0]) < 500 then FieldMa(caps[0]) else 500)
  {
    hide Run, RdoOf, FieldMa, RequestOf, CapsOf, ChoiceOf, RefreshDue, Caps;
    PortIsItsHistory(most, events);
    RequestIs(Run(most, events));
  }

  lemma RequestIs(p: Port)
    requires Shaped(p)
    ensures var caps, held := Caps(p), p.sink.held;
            var again := && p.sink.refresh && p.sink.contract
                         && 0 < held.rdo.pos <= |caps| && caps[held.rdo.pos - 1] == held.pdo;
            RequestOf(p)
            == if again then held.rdo
               else if RdoOf(caps, p.sink.want).Some? then RdoOf(caps, p.sink.want).value
               else if caps == [] then FixedRequest(1, 50, 50)
               else RdoFixed(1, if FieldMa(caps[0]) < 500 then FieldMa(caps[0]) else 500)
  {
    hide RdoOf, FieldMa;
    assert forall j | 0 <= j < p.sink.count :: Caps(p)[j] == p.sink.slots[j];
  }

  // ---- Which contracts are in force ------------------------------------------------------------------

  predicate EndsSupply(ev: Event) {
    ev.Detach? || ev.SourceHardReset? || ev == RoleSet(false)
  }

  predicate EndsSink(ev: Event) {
    ev.Detach? || ev.EndContract? || ev == RoleSet(true)
  }

  /** The supply moved in that role at step `k`, and nothing since ended what came of it. */
  predicate InForceSince(most: seq<Pdo>, events: seq<Event>, source: bool, k: nat)
    requires 1 <= |most| <= SLOTS && k < |events|
  {
    && events[k].TransitionPs? && Run(most, events[..k]).source == source
    && forall j | k < j < |events| :: !(if source then EndsSupply(events[j]) else EndsSink(events[j]))
  }

  ghost predicate InForce(most: seq<Pdo>, events: seq<Event>, source: bool)
    requires 1 <= |most| <= SLOTS
  {
    exists k: nat :: k < |events| && InForceSince(most, events, source, k)
  }

  /** One step more: a contract comes into force with it, or was in force and is not ended by it. */
  lemma InForceStep(most: seq<Pdo>, events: seq<Event>, source: bool)
    requires 1 <= |most| <= SLOTS && events != []
    ensures InForce(most, events, source)
            <==> || (Last(events).TransitionPs? && Run(most, Before(events)).source == source)
                 || (InForce(most, Before(events), source)
                     && !(if source then EndsSupply(Last(events)) else EndsSink(Last(events))))
  {
    hide InForceSince, Run, EndsSupply, EndsSink;
    var n := |events| - 1;
    forall k: nat | k < |events|
      ensures InForceSince(most, events, source, k)
              <==> if k == n then events[n].TransitionPs? && Run(most, Before(events)).source == source
                   else InForceSince(most, Before(events), source, k)
                        && !(if source then EndsSupply(events[n]) else EndsSink(events[n]))
    {
      InForceSinceStep(most, events, source, k);
    }
    assert InForceSince(most, events, source, n) || !InForceSince(most, events, source, n);
  }

  lemma InForceSinceStep(most: seq<Pdo>, events: seq<Event>, source: bool, k: nat)
    requires 1 <= |most| <= SLOTS && k < |events|
    ensures InForceSince(most, events, source, k)
            <==> if k == |events| - 1 then events[k].TransitionPs? && Run(most, Before(events)).source == source
                 else InForceSince(most, Before(events), source, k)
                      && !(if source then EndsSupply(Last(events)) else EndsSink(Last(events)))
  {
    hide Run, EndsSupply, EndsSink;
    var n := |events| - 1;
    if k < n {
      assert Before(events)[..k] == events[..k];
      assert forall j | k <= j < n :: Before(events)[j] == events[j];
    }
  }

  /**
   * In every run: a contract is in force, in either role, exactly when the supply moved in that role and
   * no detach, hard reset, end of contract or change to the other role came since.
   */
  lemma {:induction false} ContractsInForce(most: seq<Pdo>, events: seq<Event>)
    requires 1 <= |most| <= SLOTS
    ensures Run(most, events).supply.srcContract <==> InForce(most, events, true)
    ensures Run(most, events).sink.contract <==> InForce(most, events, false)
    decreases |events|
  {
    hide InForce, Next;
    if events == [] {
      NothingInForce(most);
    } else {
      ContractsInForce(most, Before(events));
      InForceStep(most, events, true);
      InForceStep(most, events, false);
      ContractStep(most, Run(most, Before(events)), Last(events));
    }
  }

  lemma ContractStep(most: seq<Pdo>, p: Port, ev: Event)
    requires Shaped(p)
    ensures var p' := Next(most, p, ev);
            && (p'.supply.srcContract <==>
                  (ev.TransitionPs? && p.source) || (p.supply.srcContract && !EndsSupply(ev)))
            && (p'.sink.contract <==> (ev.TransitionPs? && !p.source) || (p.sink.contract && !EndsSink(ev)))
  {
    hide RequestOf, RdoOf, NewOffer, ReplyTo, NamedBy;
  }

  lemma NothingInForce(most: seq<Pdo>)
    requires 1 <= |most| <= SLOTS
    ensures !InForce(most, [], true) && !InForce(most, [], false)
  {
  }

  // ---- The callbacks and commands, in place -------------------------------------------------------

  class PdPort {
    const offerMax: seq<Pdo>
    const srcCaps: array<Pdo>
    var srcCapCnt: nat
    var want: Want
    var sentRdo: Rdo
    var sentPdo: Pdo
    var contract: bool
    var contractRdo: Rdo
    var contractPdo: Pdo
    var refresh: bool
    var attached: bool
    var source: bool
    var offer: seq<Pdo>
    var sentCaps: seq<Pdo>
    var answer: Reply
    var reqRdo: Rdo
    var reqPdo: Pdo
    var srcContract: bool
    var srcRdo: Rdo
    var srcPdo: Pdo
    var drAnswer: DrAnswer

    constructor (most: seq<Pdo>)
      requires 1 <= |most| <= SLOTS
      ensures Valid() && offerMax == most && Model() == Boot(most) && fresh(srcCaps)
    {
      offerMax := most;
      srcCaps := new Pdo[SLOTS](_ => ZERO);
      srcCapCnt, want := 0, Max;
      sentRdo, sentPdo, contractRdo, contractPdo := NOTHING.rdo, ZERO, NOTHING.rdo, ZERO;
      contract, refresh, attached, source := false, false, false, false;
      offer, sentCaps, answer, drAnswer := most, [], Accept, DrAccept;
      reqRdo, reqPdo, srcContract, srcRdo, srcPdo := NOTHING.rdo, ZERO, false, NOTHING.rdo, ZERO;
      new;
      assert srcCaps[..] == Boot(most).sink.slots;
    }

    ghost predicate Valid()
      reads this
    {
      srcCaps.Length == SLOTS && srcCapCnt <= SLOTS && 1 <= |offer| <= SLOTS
    }

    ghost function SinkSide(): Sink
      reads this`srcCapCnt, this`want, this`sentRdo, this`sentPdo, this`contract, this`contractRdo, this`contractPdo,
            this`refresh, srcCaps
    {
      Sink(srcCaps[..], srcCapCnt, want, Named(sentRdo, sentPdo), contract, Named(contractRdo, contractPdo),
           refresh)
    }

    ghost function SupplySide(): Supply
      reads this`offer, this`sentCaps, this`answer, this`reqRdo, this`reqPdo, this`srcContract, this`srcRdo,
            this`srcPdo, this`drAnswer
    {
      Supply(offer, sentCaps, answer, Named(reqRdo, reqPdo), srcContract, Named(srcRdo, srcPdo), drAnswer)
    }

    ghost function Model(): (p: Port)
      requires Valid()
      reads this, srcCaps
      ensures Shaped(p)
    {
      Port(SinkSide(), SupplySide(), attached, source)
    }

    /** `policy_set_src_cap`. */
    method SetSrcCap(pdos: seq<Pdo>)
      requires Valid()
      modifies this`srcCapCnt, srcCaps
      ensures Valid() && Model() == Next(offerMax, old(Model()), SetSourceCaps(pdos))
    {
      var n := Min(|pdos|, SLOTS);
      var i := 0;
      while i < n
        invariant i <= n && srcCapCnt == old(srcCapCnt)
        invariant srcCaps[..i] == pdos[..i] && srcCaps[i..] == old(srcCaps[i..])
      {
        srcCaps[i] := pdos[i];
        i := i + 1;
      }
      srcCapCnt := n;
      assert srcCaps[..] == srcCaps[..n] + srcCaps[n..];
    }

    /** The first half of `policy_get_rdo`: what to ask for. */
    method PickRdo() returns (rdo: Rdo)
      requires Valid()
      ensures rdo == RequestOf(Model())
    {
      hide RdoOf, SupplySide;
      var cpos := contractRdo.pos;
      assert Caps(Model()) == srcCaps[..srcCapCnt];
      var chosen := RdoFor(srcCaps[..srcCapCnt], want);
      if refresh && contract && 1 <= cpos <= srcCapCnt && srcCaps[cpos - 1] == contractPdo {
        return contractRdo;
      }
      if chosen.Some? {
        return chosen.value;
      }
      return RdoFixed(1, if srcCapCnt > 0 then Min(SAFE_MA, FieldMa(srcCaps[0])) else SAFE_MA);
    }

    /** `policy_get_rdo`. */
    method PolicyGetRdo() returns (rdo: Rdo)
      requires Valid()
      modifies this`refresh, this`sentRdo, this`sentPdo
      ensures Valid() && rdo == RequestOf(old(Model())) && Model() == Next(offerMax, old(Model()), GetRdo)
    {
      hide RequestOf, SupplySide;
      rdo := PickRdo();
      refresh := false;
      sentRdo := rdo;
      sentPdo := srcCaps[rdo.pos - 1];
    }

    /** `want_set`: a choice is kept only if it is valid now, and only as sink. */
    method WantSet(w: Want) returns (ok: bool)
      requires Valid()
      modifies this`want
      ensures Valid() && Model() == Next(offerMax, old(Model()), Choose(w))
      ensures ok <==> !source && Allows(Caps(Model()), w)
    {
      hide RdoOf, Allows;
      AllowedIsRequested(Caps(Model()), w);
      assert Caps(Model()) == srcCaps[..srcCapCnt];
      var rdo := RdoFor(srcCaps[..srcCapCnt], w);
      if source || rdo.None? {
        return false;
      }
      want := w;
      assert Caps(Model()) == srcCaps[..srcCapCnt];
      return true;
    }

    /** `keepalive_handler`, as far as the port goes. */
    method KeepAliveDue(off: bool)
      requires Valid()
      modifies this`refresh
      ensures Valid() && Model() == Next(offerMax, old(Model()), KeepAlive(off))
    {
      refresh := contract && contractPdo.Pps? && !off;
    }

    /** `contract_end`. */
    method ContractEnd()
      requires Valid()
      modifies this`contract, this`refresh
      ensures Valid() && SinkSide() == Ended(old(SinkSide()))
      ensures Model() == Next(offerMax, old(Model()), EndContract)
    {
      hide SupplySide, RequestOf, NewOffer, ReplyTo;
      contract := false;
      refresh := false;
    }

    /** A partner's capabilities no longer apply. */
    method ForgetCaps()
      requires Valid()
      modifies this`srcCapCnt
      ensures Valid() && SinkSide() == old(SinkSide()).(count := 0)
    {
      srcCapCnt := 0;
    }

    method EndSourceContract()
      modifies this`srcContract
      ensures SupplySide() == old(SupplySide()).(srcContract := false)
    {
      srcContract := false;
    }

    /** `role_set`. */
    method SetRole(toSource: bool)
      requires Valid()
      modifies this`attached, this`source, this`srcCapCnt, this`srcContract, this`contract, this`refresh
      ensures Valid() && Model() == Next(offerMax, old(Model()), RoleSet(toSource))
    {
      hide SinkSide, SupplySide, RequestOf, NewOffer, ReplyTo;
      attached := true;
      source := toSource;
      if toSource {
        ForgetCaps();
        ContractEnd();
      } else {
        EndSourceContract();
      }
    }

    /** The TRANSITION_PS arm of `policy_notify`. */
    method PowerTransition()
      requires Valid()
      modifies this`srcContract, this`srcRdo, this`srcPdo, this`contract, this`contractRdo, this`contractPdo
      ensures Valid() && Model() == Next(offerMax, old(Model()), TransitionPs)
    {
      hide RequestOf, NewOffer, ReplyTo;
      if source {
        srcContract := true;
        srcRdo := reqRdo;
        srcPdo := reqPdo;
        return;
      }
      contract := true;
      contractRdo := sentRdo;
      contractPdo := sentPdo;
    }

    /** `detach`. */
    method PartnerGone()
      requires Valid()
      modifies this`attached, this`source, this`srcCapCnt, this`srcContract, this`contract, this`refresh
      ensures Valid() && Model() == Detached(old(Model()))
    {
      hide SinkSide, SupplySide, RequestOf, NewOffer, ReplyTo, Next;
      attached := false;
      source := false;
      ForgetCaps();
      EndSourceContract();
      ContractEnd();
    }

    /** `src_hard_reset`, as far as the contract goes. */
    method HardResetAsSource()
      requires Valid()
      modifies this`srcContract
      ensures Valid() && Model() == Next(offerMax, old(Model()), SourceHardReset)
    {
      EndSourceContract();
    }

    /** `policy_get_src_caps`: what is sent is kept beside what may be set meanwhile. */
    method PolicyGetSrcCaps() returns (pdos: seq<Pdo>)
      requires Valid()
      modifies this`sentCaps
      ensures Valid() && pdos == offer && Model() == Next(offerMax, old(Model()), GetSourceCaps)
    {
      sentCaps := offer;
      pdos := sentCaps;
    }

    /** `policy_check_sink_request`: judged against the capabilities sent, not the ones set. */
    method CheckSinkRequest(request: Rdo) returns (reply: Reply)
      requires Valid()
      modifies this`reqRdo, this`reqPdo
      ensures Valid() && reply == ReplyTo(old(Model()), request)
      ensures Model() == Next(offerMax, old(Model()), CheckRequest(request))
    {
      hide SinkSide, RequestOf, NewOffer;
      var pdo := if 1 <= request.pos <= |sentCaps| then sentCaps[request.pos - 1] else ZERO;
      reply := answer;
      if reply.Accept? && !Fits(pdo, request) {
        reply := Reject;
      }
      if reply.Accept? {
        reqRdo := request;
        reqPdo := pdo;
      }
    }

    /** `cmd_srccaps` with a list: all of it, or the offer stays as it was. */
    method CmdSrcCaps(args: seq<Arg>) returns (ok: bool)
      requires Valid() && 1 <= |args| <= SLOTS
      modifies this`offer
      ensures Valid() && Model() == Next(offerMax, old(Model()), SetOffer(args))
      ensures ok <==> OfferOf(offerMax, args, |args|).Some?
    {
      hide OfferOf;
      var list := BuildOffer(offerMax, args);
      if list.None? {
        return false;
      }
      offer := list.value[0 := DualData(list.value[0], drAnswer)];
      return true;
    }

    /** `dr_answer_set`. */
    method DrAnswerSet(a: DrAnswer)
      requires Valid()
      modifies this`drAnswer, this`offer
      ensures Valid() && Model() == Next(offerMax, old(Model()), SetDrAnswer(a))
    {
      drAnswer := a;
      offer := offer[0 := DualData(offer[0], a)];
    }
  }
}
