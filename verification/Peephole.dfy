/**
 The code list and its label and jump peephole: a jump to the label that follows
 it is deleted, a label in front of a jump is made an alias of the jump's target,
 and a jump that cannot be reached is dropped.
 */
module Peephole {

  type Label = nat

  // -------------------------------------------------------------- label aliases

  /** The equations made so far, oldest first: `src` stands for `dst` from then on. */
  datatype Alias = NoAlias | Equate(before: Alias, src: Label, dst: Label)

  /** What a label stands for in the end. */
  function Resolve(h: Alias, l: Label): Label {
    match h
    case NoAlias => l
    case Equate(b, src, dst) => var r := Resolve(b, l); if r == src then Resolve(b, dst) else r
  }

  /** Number of equations on the way from a label to what it stands for. */
  function Hops(h: Alias, l: Label): nat {
    match h
    case NoAlias => 0
    case Equate(b, src, dst) => Hops(b, l) + if Resolve(b, l) == src then 1 + Hops(b, dst) else 0
  }

  /** Each label was equated once, and never to something that stood for itself. */
  ghost predicate AliasOk(h: Alias) {
    match h
    case NoAlias => true
    case Equate(b, src, dst) => AliasOk(b) && Resolve(b, src) == src && Resolve(b, dst) != src
  }

  /** The `equatedto` fields: one link for each equated label. */
  function Links(h: Alias): map<Label, Label> {
    match h
    case NoAlias => map[]
    case Equate(b, src, dst) => Links(b)[src := dst]
  }

  /**
   Following a link stays on the way to the same label and gets closer to it; a label without a link stands for itself.
   */
  lemma {:induction false} LinkStep(h: Alias, l: Label)
    requires AliasOk(h)
    ensures if l in Links(h) then Resolve(h, l) == Resolve(h, Links(h)[l]) && Hops(h, l) == 1 + Hops(h, Links(h)[l])
            else Resolve(h, l) == l && Hops(h, l) == 0
  {
    match h
    case NoAlias =>
    case Equate(b, src, dst) =>
      LinkStep(b, l);
      LinkStep(b, src);
      if l in Links(b) {
        Fixed(b, src);
      }
  }

  /** Only unlinked labels stand for themselves. */
  lemma {:induction false} Fixed(h: Alias, l: Label)
    requires AliasOk(h) && Resolve(h, l) == l
    ensures l !in Links(h)
  {
    match h
    case NoAlias =>
    case Equate(b, src, dst) =>
      if Resolve(b, l) == src {
        assert Resolve(b, dst) == l;
        assert Resolve(b, l) == l by { Idempotent(b, dst); }
      } else {
        Fixed(b, l);
      }
  }

  lemma {:induction false} Idempotent(h: Alias, l: Label)
    requires AliasOk(h)
    ensures Resolve(h, Resolve(h, l)) == Resolve(h, l)
  {
    match h
    case NoAlias =>
    case Equate(b, src, dst) =>
      Idempotent(b, l);
      Idempotent(b, dst);
  }

  // ------------------------------------------------------------------ execution

  /** Code list entries. An action may fall through to what follows unless it is the end of a switch. */
  datatype Entry = Decl | Mark(l: Label) | Jump(l: Label) | Action(id: nat, falls: bool)

  /** Where control gets without doing anything: to an action, off the end, or to a label that is not in the list. */
  datatype Stop = At(id: nat) | End | Exit(l: Label)

  datatype Next = Stops(s: Stop) | Goes(pc: nat)

  datatype Option = None | Some(s: Stop)

  ghost predicate Distinct(code: seq<Entry>) {
    && (forall i, j :: 0 <= i < j < |code| && code[i].Mark? && code[j].Mark? ==> code[i].l != code[j].l)
    && forall i, j :: 0 <= i < j < |code| && code[i].Action? && code[j].Action? ==> code[i].id != code[j].id
  }

  /** Labels in the list are not aliases. */
  ghost predicate Unaliased(code: seq<Entry>, h: Alias) {
    forall i :: 0 <= i < |code| && code[i].Mark? ==> Resolve(h, code[i].l) == code[i].l
  }

  ghost predicate WellFormed(code: seq<Entry>, h: Alias) {
    AliasOk(h) && Distinct(code) && Unaliased(code, h)
  }

  ghost function Place(code: seq<Entry>, l: Label): (i: nat)
    requires Mark(l) in code
    ensures i < |code| && code[i] == Mark(l)
  {
    var i :| 0 <= i < |code| && code[i] == Mark(l);
    i
  }

  /** Where a jump to l lands. */
  ghost function Land(code: seq<Entry>, h: Alias, l: Label): (n: Next)
    ensures n.Goes? ==> n.pc < |code|
  {
    var r := Resolve(h, l);
    if Mark(r) in code then Goes(Place(code, r)) else Stops(Exit(r))
  }

  ghost function Step(code: seq<Entry>, h: Alias, pc: nat): (n: Next)
    requires pc <= |code|
    ensures n.Goes? ==> n.pc <= |code|
  {
    if pc == |code| then Stops(End)
    else match code[pc]
      case Decl => Goes(pc + 1)
      case Mark(_) => Goes(pc + 1)
      case Jump(l) => Land(code, h, l)
      case Action(id, _) => Stops(At(id))
  }

  ghost function Run(code: seq<Entry>, h: Alias, pc: nat, k: nat): Option
    requires pc <= |code|
    decreases k
  {
    match Step(code, h, pc)
    case Stops(s) => Some(s)
    case Goes(next) => if k == 0 then None else Run(code, h, next, k - 1)
  }

  /** Control at pc gets to s in finitely many steps. */
  ghost predicate Reaches(code: seq<Entry>, h: Alias, pc: nat, s: Stop)
    requires pc <= |code|
  {
    exists k: nat :: Run(code, h, pc, k) == Some(s)
  }

  ghost predicate Arrives(code: seq<Entry>, h: Alias, n: Next, s: Stop) {
    match n
    case Stops(t) => s == t
    case Goes(pc) => pc <= |code| && Reaches(code, h, pc, s)
  }

  lemma {:induction false} RunMore(code: seq<Entry>, h: Alias, pc: nat, k: nat, k': nat)
    requires pc <= |code| && k <= k' && Run(code, h, pc, k).Some?
    ensures Run(code, h, pc, k') == Run(code, h, pc, k)
    decreases k
  {
    match Step(code, h, pc)
    case Stops(_) =>
    case Goes(next) => RunMore(code, h, next, k - 1, k' - 1);
  }

  lemma ReachesStep(code: seq<Entry>, h: Alias, pc: nat, s: Stop)
    requires pc <= |code|
    ensures Reaches(code, h, pc, s) <==> Arrives(code, h, Step(code, h, pc), s)
  {
    match Step(code, h, pc)
    case Stops(t) =>
      assert Run(code, h, pc, 0) == Some(t);
    case Goes(next) =>
      if k: nat :| Run(code, h, pc, k) == Some(s) {
        assert Run(code, h, next, k - 1) == Some(s);
      }
      if k: nat :| Run(code, h, next, k) == Some(s) {
        assert Run(code, h, pc, k + 1) == Some(s);
      }
  }

  predicate Quiet(e: Entry) {
    e.Decl? || e.Mark?
  }

  /** Control falls through declarations and labels. */
  lemma {:induction false} FallThrough(code: seq<Entry>, h: Alias, a: nat, b: nat, s: Stop)
    requires a <= b <= |code| && forall i :: a <= i < b ==> Quiet(code[i])
    ensures Reaches(code, h, a, s) <==> Reaches(code, h, b, s)
    decreases b - a
  {
    if a < b {
      ReachesStep(code, h, a, s);
      FallThrough(code, h, a + 1, b, s);
    }
  }

  lemma PlaceUnique(code: seq<Entry>, i: nat, l: Label)
    requires Distinct(code) && i < |code| && code[i] == Mark(l)
    ensures Place(code, l) == i
  {
  }

  // ---------------------------------------------------------- deleting an entry

  function Without(code: seq<Entry>, i: nat): seq<Entry>
    requires i < |code|
  {
    code[..i] + code[i + 1..]
  }

  /** Where a position of the old list is in the list without entry i. */
  function Shift(i: nat, pc: nat): nat {
    if pc <= i then pc else pc - 1
  }

  function ShiftNext(i: nat, n: Next): Next {
    match n
    case Stops(s) => Stops(s)
    case Goes(pc) => Goes(Shift(i, pc))
  }

  lemma WithoutAt(code: seq<Entry>, i: nat, pc: nat)
    requires i < |code| && pc < |code| && pc != i
    ensures Shift(i, pc) < |Without(code, i)| && Without(code, i)[Shift(i, pc)] == code[pc]
  {
  }

  lemma WithoutDistinct(code: seq<Entry>, i: nat)
    requires i < |code| && Distinct(code)
    ensures Distinct(Without(code, i))
    ensures forall e :: e in Without(code, i) ==> e in code
    ensures forall e :: e in code && e != code[i] ==> e in Without(code, i)
  {
    WithoutMembers(code, i);
  }

  lemma WithoutMembers(code: seq<Entry>, i: nat)
    requires i < |code|
    ensures forall e :: e in code && e != code[i] ==> e in Without(code, i)
  {
    var code' := Without(code, i);
    forall e | e in code && e != code[i] ensures e in code' {
      var k :| 0 <= k < |code| && code[k] == e;
      WithoutAt(code, i, k);
    }
  }

  /** Deleting an entry moves the place of every other label along. */
  lemma {:induction false} LandShift(code: seq<Entry>, h: Alias, i: nat, l: Label)
    requires i < |code| && Distinct(code) && code[i] != Mark(Resolve(h, l))
    ensures Land(Without(code, i), h, l) == ShiftNext(i, Land(code, h, l))
  {
    var r := Resolve(h, l);
    WithoutDistinct(code, i);
    if Mark(r) in code {
      WithoutAt(code, i, Place(code, r));
      PlaceUnique(Without(code, i), Shift(i, Place(code, r)), r);
    }
  }

  lemma {:induction false} StepShift(code: seq<Entry>, h: Alias, i: nat, pc: nat)
    requires i < |code| && Distinct(code) && pc <= |code| && pc != i
    requires pc < |code| && code[pc].Jump? ==> code[i] != Mark(Resolve(h, code[pc].l))
    ensures Step(Without(code, i), h, Shift(i, pc)) == ShiftNext(i, Step(code, h, pc))
  {
    if pc < |code| {
      WithoutAt(code, i, pc);
      if code[pc].Jump? {
        LandShift(code, h, i, code[pc].l);
      }
    }
  }

  lemma {:induction false} RunFall(code: seq<Entry>, h: Alias, a: nat, b: nat, k: nat)
    requires a <= b <= |code| && (forall i :: a <= i < b ==> Quiet(code[i])) && Run(code, h, a, k).Some?
    ensures k >= b - a && Run(code, h, b, k - (b - a)) == Run(code, h, a, k)
    decreases b - a
  {
    if a < b {
      RunFall(code, h, a + 1, b, k - 1);
    }
  }

  // -------------------------------------------- edit 1: a jump to a label ahead

  /** Entry i jumps to the label at j, with only declarations and labels in between. */
  ghost predicate JumpsAhead(code: seq<Entry>, h: Alias, i: nat, j: nat) {
    && i < j < |code| && WellFormed(code, h) && code[i].Jump? && code[j] == Mark(code[i].l)
    && forall k :: i < k < j ==> Quiet(code[k])
  }

  lemma {:induction false} AheadForward(code: seq<Entry>, h: Alias, i: nat, j: nat, pc: nat, k: nat, s: Stop)
    requires JumpsAhead(code, h, i, j) && pc <= |code| && Run(code, h, pc, k) == Some(s)
    ensures Reaches(Without(code, i), h, Shift(i, pc), s)
    decreases k
  {
    var code' := Without(code, i);
    if pc == i {
      PlaceUnique(code, j, code[i].l);
      AheadForward(code, h, i, j, j, k - 1, s);
      forall x | i <= x < j - 1 ensures Quiet(code'[x]) {
        WithoutAt(code, i, x + 1);
      }
      FallThrough(code', h, i, j - 1, s);
    } else {
      StepShift(code, h, i, pc);
      ReachesStep(code', h, Shift(i, pc), s);
      match Step(code, h, pc)
      case Stops(_) =>
      case Goes(next) => AheadForward(code, h, i, j, next, k - 1, s);
    }
  }

  lemma {:induction false} AheadBackward(code: seq<Entry>, h: Alias, i: nat, j: nat, pc: nat, k: nat, s: Stop)
    requires JumpsAhead(code, h, i, j) && pc <= |code| && Run(Without(code, i), h, Shift(i, pc), k) == Some(s)
    ensures Reaches(code, h, pc, s)
    decreases k, if pc == i then 1 else 0
  {
    if pc == i {
      AheadBackward(code, h, i, j, i + 1, k, s);
      FallThrough(code, h, i + 1, j, s);
      PlaceUnique(code, j, code[i].l);
      ReachesStep(code, h, i, s);
    } else {
      StepShift(code, h, i, pc);
      ReachesStep(code, h, pc, s);
      match Step(code, h, pc)
      case Stops(_) =>
      case Goes(next) => AheadBackward(code, h, i, j, next, k - 1, s);
    }
  }

  // --------------------------------------------- edit 2: a label in front of a jump

  /** The label at i is followed, but for declarations, by a jump at j that does not come back to it. */
  ghost predicate LeadsToJump(code: seq<Entry>, h: Alias, i: nat, j: nat) {
    && i < j < |code| && WellFormed(code, h) && code[i].Mark? && code[j].Jump?
    && Resolve(h, code[j].l) != code[i].l
    && forall k :: i < k < j ==> code[k].Decl?
  }

  /** The label becomes an alias of the target. */
  function Redirect(code: seq<Entry>, h: Alias, i: nat, j: nat): Alias
    requires i < |code| && j < |code| && code[i].Mark? && code[j].Jump?
  {
    Equate(h, code[i].l, code[j].l)
  }

  /** Jumps to other labels land as before; jumps to the label land where the jump after it lands. */
  lemma {:induction false} LandRedirect(code: seq<Entry>, h: Alias, i: nat, j: nat, l: Label)
    requires LeadsToJump(code, h, i, j)
    ensures Land(Without(code, i), Redirect(code, h, i, j), l) ==
            ShiftNext(i, if Resolve(h, l) == code[i].l then Land(code, h, code[j].l) else Land(code, h, l))
    ensures Resolve(h, l) == code[i].l ==> Land(code, h, l) == Goes(i)
  {
    var h' := Redirect(code, h, i, j);
    if Resolve(h, l) == code[i].l {
      PlaceUnique(code, i, code[i].l);
      LandShift(code, h, i, code[j].l);
      assert Resolve(h', l) == Resolve(h, code[j].l);
    } else {
      LandShift(code, h, i, l);
      assert Resolve(h', l) == Resolve(h, l);
    }
  }

  predicate GoesToLabel(code: seq<Entry>, h: Alias, i: nat, pc: nat) {
    i < |code| && code[i].Mark? && pc < |code| && code[pc].Jump? && Resolve(h, code[pc].l) == code[i].l
  }

  lemma StepRedirect(code: seq<Entry>, h: Alias, i: nat, j: nat, pc: nat)
    requires LeadsToJump(code, h, i, j) && pc <= |code| && pc != i
    ensures Step(Without(code, i), Redirect(code, h, i, j), Shift(i, pc)) ==
            ShiftNext(i, if GoesToLabel(code, h, i, pc) then Land(code, h, code[j].l) else Step(code, h, pc))
    ensures GoesToLabel(code, h, i, pc) ==> Step(code, h, pc) == Goes(i)
  {
    if pc < |code| {
      WithoutAt(code, i, pc);
      if code[pc].Jump? {
        LandRedirect(code, h, i, j, code[pc].l);
      }
    }
  }

  lemma {:induction false} LeadForward(code: seq<Entry>, h: Alias, i: nat, j: nat, pc: nat, k: nat, s: Stop)
    requires LeadsToJump(code, h, i, j) && pc <= |code| && Run(code, h, pc, k) == Some(s)
    ensures Reaches(Without(code, i), Redirect(code, h, i, j), Shift(i, pc), s)
    decreases k
  {
    if pc == i {
      LeadForward(code, h, i, j, i + 1, k - 1, s);
    } else {
      StepRedirect(code, h, i, j, pc);
      ReachesStep(Without(code, i), Redirect(code, h, i, j), Shift(i, pc), s);
      if GoesToLabel(code, h, i, pc) {
        RunFall(code, h, i, j, k - 1);
        match Land(code, h, code[j].l)
        case Stops(_) =>
        case Goes(next) => LeadForward(code, h, i, j, next, k - 1 - (j - i) - 1, s);
      } else {
        match Step(code, h, pc)
        case Stops(_) =>
        case Goes(next) => LeadForward(code, h, i, j, next, k - 1, s);
      }
    }
  }

  lemma {:induction false} LeadBackward(code: seq<Entry>, h: Alias, i: nat, j: nat, pc: nat, k: nat, s: Stop)
    requires LeadsToJump(code, h, i, j) && pc <= |code|
    requires Run(Without(code, i), Redirect(code, h, i, j), Shift(i, pc), k) == Some(s)
    ensures Reaches(code, h, pc, s)
    decreases k, if pc == i then 1 else 0
  {
    ReachesStep(code, h, pc, s);
    if pc == i {
      LeadBackward(code, h, i, j, i + 1, k, s);
    } else {
      StepRedirect(code, h, i, j, pc);
      if GoesToLabel(code, h, i, pc) {
        match Land(code, h, code[j].l) {
          case Stops(_) =>
          case Goes(next) => LeadBackward(code, h, i, j, next, k - 1, s);
        }
        ReachesStep(code, h, j, s);
        FallThrough(code, h, i, j, s);
      } else {
        match Step(code, h, pc)
        case Stops(_) =>
        case Goes(next) => LeadBackward(code, h, i, j, next, k - 1, s);
      }
    }
  }

  // ------------------------------------------------ edit 3: a jump that is never reached

  /** The jump at i follows, but for declarations, an entry at j that never falls through. */
  ghost predicate Unreached(code: seq<Entry>, h: Alias, i: nat, j: nat) {
    && j < i < |code| && WellFormed(code, h) && code[i].Jump?
    && (code[j].Jump? || (code[j].Action? && !code[j].falls))
    && forall k :: j < k < i ==> code[k].Decl?
  }

  predicate Live(i: nat, j: nat, pc: nat) {
    !(j < pc <= i)
  }

  lemma {:induction false} UnreachedForward(code: seq<Entry>, h: Alias, i: nat, j: nat, pc: nat, k: nat, s: Stop)
    requires Unreached(code, h, i, j) && pc <= |code| && Live(i, j, pc) && Run(code, h, pc, k) == Some(s)
    ensures Reaches(Without(code, i), h, Shift(i, pc), s)
    decreases k
  {
    StepShift(code, h, i, pc);
    ReachesStep(Without(code, i), h, Shift(i, pc), s);
    match Step(code, h, pc)
    case Stops(_) =>
    case Goes(next) => UnreachedForward(code, h, i, j, next, k - 1, s);
  }

  lemma {:induction false} UnreachedBackward(code: seq<Entry>, h: Alias, i: nat, j: nat, pc: nat, k: nat, s: Stop)
    requires Unreached(code, h, i, j) && pc <= |code| && Live(i, j, pc)
      && Run(Without(code, i), h, Shift(i, pc), k) == Some(s)
    ensures Reaches(code, h, pc, s)
    decreases k
  {
    StepShift(code, h, i, pc);
    ReachesStep(code, h, pc, s);
    match Step(code, h, pc)
    case Stops(_) =>
    case Goes(next) => UnreachedBackward(code, h, i, j, next, k - 1, s);
  }

  // ------------------------------------------------------ edit 4: a label after a label

  /** The label at i directly follows another one. */
  ghost predicate Doubled(code: seq<Entry>, h: Alias, i: nat) {
    0 < i < |code| && WellFormed(code, h) && code[i].Mark? && code[i - 1].Mark?
  }

  /** The label becomes an alias of the one before it. */
  function Merge(code: seq<Entry>, h: Alias, i: nat): Alias
    requires 0 < i < |code| && code[i].Mark? && code[i - 1].Mark?
  {
    Equate(h, code[i].l, code[i - 1].l)
  }

  lemma {:induction false} LandMerge(code: seq<Entry>, h: Alias, i: nat, l: Label)
    requires Doubled(code, h, i)
    ensures if Resolve(h, l) == code[i].l
            then Land(code, h, l) == Goes(i) && Land(Without(code, i), Merge(code, h, i), l) == Goes(i - 1)
            else Land(Without(code, i), Merge(code, h, i), l) == ShiftNext(i, Land(code, h, l))
  {
    if Resolve(h, l) == code[i].l {
      PlaceUnique(code, i, code[i].l);
      WithoutDistinct(code, i);
      PlaceUnique(Without(code, i), i - 1, code[i - 1].l);
    } else {
      LandShift(code, h, i, l);
      assert Resolve(Merge(code, h, i), l) == Resolve(h, l);
    }
  }

  lemma {:induction false} MergeForward(code: seq<Entry>, h: Alias, i: nat, pc: nat, k: nat, s: Stop)
    requires Doubled(code, h, i) && pc <= |code| && Run(code, h, pc, k) == Some(s)
    ensures Reaches(Without(code, i), Merge(code, h, i), Shift(i, pc), s)
    decreases k
  {
    var code', g := Without(code, i), Merge(code, h, i);
    ReachesStep(code', g, Shift(i, pc), s);
    if pc == i {
      MergeForward(code, h, i, i + 1, k - 1, s);
    } else {
      if pc < |code| {
        WithoutAt(code, i, pc);
        if code[pc].Jump? {
          LandMerge(code, h, i, code[pc].l);
          ReachesStep(code', g, i - 1, s);
        }
      }
      match Step(code, h, pc)
      case Stops(_) =>
      case Goes(next) => MergeForward(code, h, i, next, k - 1, s);
    }
  }

  lemma {:induction false} MergeBackward(code: seq<Entry>, h: Alias, i: nat, pc: nat, k: nat, s: Stop)
    requires Doubled(code, h, i) && pc <= |code| && Run(Without(code, i), Merge(code, h, i), Shift(i, pc), k) == Some(s)
    ensures Reaches(code, h, pc, s)
    decreases k, if pc == i then 1 else 0
  {
    ReachesStep(code, h, pc, s);
    if pc == i {
      MergeBackward(code, h, i, i + 1, k, s);
    } else if GoesToLabel(code, h, i, pc) {
      WithoutAt(code, i, pc);
      LandMerge(code, h, i, code[pc].l);
      MergeBackward(code, h, i, i - 1, k - 1, s);
      ReachesStep(code, h, i - 1, s);
    } else {
      if pc < |code| {
        WithoutAt(code, i, pc);
        if code[pc].Jump? {
          LandMerge(code, h, i, code[pc].l);
        }
      }
      match Step(code, h, pc)
      case Stops(_) =>
      case Goes(next) => MergeBackward(code, h, i, next, k - 1, s);
    }
  }

  // -------------------------------------------------------------------- equivalence

  /** Control that leaves action id downwards gets to s. */
  ghost predicate ReachesAfter(code: seq<Entry>, h: Alias, id: nat, s: Stop) {
    exists q :: 0 <= q < |code| && code[q] == Action(id, true) && Reaches(code, h, q + 1, s)
  }

  /**
   From the start, from every label and after every action, both lists get to the same stops, or run forever alike.
   */
  ghost predicate Equivalent(a: seq<Entry>, h: Alias, b: seq<Entry>, g: Alias) {
    && (forall s :: Reaches(a, h, 0, s) <==> Reaches(b, g, 0, s))
    && (forall l, s :: Arrives(a, h, Land(a, h, l), s) <==> Arrives(b, g, Land(b, g, l), s))
    && forall id, s :: ReachesAfter(a, h, id, s) <==> ReachesAfter(b, g, id, s)
  }

  /** Positions after an action correspond when those positions reach the same stops. */
  lemma AfterForward(code: seq<Entry>, h: Alias, i: nat, g: Alias, id: nat, s: Stop, q: nat)
    requires i < |code| && !code[i].Action? && q < |code| && code[q] == Action(id, true)
    requires Reaches(Without(code, i), g, Shift(i, q + 1), s)
    ensures ReachesAfter(Without(code, i), g, id, s)
  {
    WithoutAt(code, i, q);
    assert Shift(i, q) + 1 == Shift(i, q + 1);
  }

  lemma AfterBackward(code: seq<Entry>, h: Alias, i: nat, g: Alias, id: nat, s: Stop, q': nat)
    requires i < |code| && !code[i].Action?
    requires forall q :: 0 <= q < |code| && code[q] == Action(id, true) ==>
      (Reaches(code, h, q + 1, s) <==> Reaches(Without(code, i), g, Shift(i, q + 1), s))
    requires q' < |code| - 1 && Without(code, i)[q'] == Action(id, true) && Reaches(Without(code, i), g, q' + 1, s)
    ensures ReachesAfter(code, h, id, s)
  {
    var q := if q' < i then q' else q' + 1;
    assert code[q] == Action(id, true) && Shift(i, q + 1) == q' + 1;
  }

  lemma AfterMatches(code: seq<Entry>, h: Alias, i: nat, g: Alias, id: nat, s: Stop)
    requires i < |code| && !code[i].Action?
    requires forall q :: 0 <= q < |code| && code[q] == Action(id, true) ==>
      (Reaches(code, h, q + 1, s) <==> Reaches(Without(code, i), g, Shift(i, q + 1), s))
    ensures ReachesAfter(code, h, id, s) <==> ReachesAfter(Without(code, i), g, id, s)
  {
    if q :| 0 <= q < |code| && code[q] == Action(id, true) && Reaches(code, h, q + 1, s) {
      AfterForward(code, h, i, g, id, s, q);
    }
    var code' := Without(code, i);
    if q' :| 0 <= q' < |code'| && code'[q'] == Action(id, true) && Reaches(code', g, q' + 1, s) {
      AfterBackward(code, h, i, g, id, s, q');
    }
  }

  lemma AheadEquivalent(code: seq<Entry>, h: Alias, i: nat, j: nat)
    requires JumpsAhead(code, h, i, j)
    ensures Equivalent(code, h, Without(code, i), h)
  {
    var code' := Without(code, i);
    forall pc, s | 0 <= pc <= |code| ensures Reaches(code, h, pc, s) <==> Reaches(code', h, Shift(i, pc), s) {
      if k: nat :| Run(code, h, pc, k) == Some(s) { AheadForward(code, h, i, j, pc, k, s); }
      if k: nat :| Run(code', h, Shift(i, pc), k) == Some(s) { AheadBackward(code, h, i, j, pc, k, s); }
    }
    forall l, s ensures Arrives(code, h, Land(code, h, l), s) <==> Arrives(code', h, Land(code', h, l), s) {
      LandShift(code, h, i, l);
    }
    forall id, s ensures ReachesAfter(code, h, id, s) <==> ReachesAfter(code', h, id, s) {
      AfterMatches(code, h, i, h, id, s);
    }
  }

  lemma LeadEquivalent(code: seq<Entry>, h: Alias, i: nat, j: nat)
    requires LeadsToJump(code, h, i, j)
    ensures Equivalent(code, h, Without(code, i), Redirect(code, h, i, j))
  {
    var code', g := Without(code, i), Redirect(code, h, i, j);
    forall pc, s | 0 <= pc <= |code| ensures Reaches(code, h, pc, s) <==> Reaches(code', g, Shift(i, pc), s) {
      if k: nat :| Run(code, h, pc, k) == Some(s) { LeadForward(code, h, i, j, pc, k, s); }
      if k: nat :| Run(code', g, Shift(i, pc), k) == Some(s) { LeadBackward(code, h, i, j, pc, k, s); }
    }
    forall l, s ensures Arrives(code, h, Land(code, h, l), s) <==> Arrives(code', g, Land(code', g, l), s) {
      LandRedirect(code, h, i, j, l);
      ReachesStep(code, h, j, s);
      FallThrough(code, h, i, j, s);
    }
    forall id, s ensures ReachesAfter(code, h, id, s) <==> ReachesAfter(code', g, id, s) {
      AfterMatches(code, h, i, g, id, s);
    }
  }

  lemma UnreachedEquivalent(code: seq<Entry>, h: Alias, i: nat, j: nat)
    requires Unreached(code, h, i, j)
    ensures Equivalent(code, h, Without(code, i), h)
  {
    var code' := Without(code, i);
    forall pc, s | 0 <= pc <= |code| && Live(i, j, pc)
      ensures Reaches(code, h, pc, s) <==> Reaches(code', h, Shift(i, pc), s)
    {
      if k: nat :| Run(code, h, pc, k) == Some(s) { UnreachedForward(code, h, i, j, pc, k, s); }
      if k: nat :| Run(code', h, Shift(i, pc), k) == Some(s) { UnreachedBackward(code, h, i, j, pc, k, s); }
    }
    forall l, s ensures Arrives(code, h, Land(code, h, l), s) <==> Arrives(code', h, Land(code', h, l), s) {
      LandShift(code, h, i, l);
    }
    forall id, s ensures ReachesAfter(code, h, id, s) <==> ReachesAfter(code', h, id, s) {
      AfterMatches(code, h, i, h, id, s);
    }
  }

  lemma MergeEquivalent(code: seq<Entry>, h: Alias, i: nat)
    requires Doubled(code, h, i)
    ensures Equivalent(code, h, Without(code, i), Merge(code, h, i))
  {
    var code', g := Without(code, i), Merge(code, h, i);
    forall pc, s | 0 <= pc <= |code| ensures Reaches(code, h, pc, s) <==> Reaches(code', g, Shift(i, pc), s) {
      if k: nat :| Run(code, h, pc, k) == Some(s) { MergeForward(code, h, i, pc, k, s); }
      if k: nat :| Run(code', g, Shift(i, pc), k) == Some(s) { MergeBackward(code, h, i, pc, k, s); }
    }
    forall l, s ensures Arrives(code, h, Land(code, h, l), s) <==> Arrives(code', g, Land(code', g, l), s) {
      LandMerge(code, h, i, l);
      ReachesStep(code', g, i - 1, s);
    }
    forall id, s ensures ReachesAfter(code, h, id, s) <==> ReachesAfter(code', g, id, s) {
      AfterMatches(code, h, i, g, id, s);
    }
  }

  // ------------------------------------------------------------------ the code list

  /** Whatever is emitted next, the edited list with its aliases runs like the list as emitted. */
  ghost predicate Tracks(raw: seq<Entry>, items: seq<Entry>, h: Alias) {
    forall rest :: WellFormed(raw + rest, NoAlias) ==>
      WellFormed(items + rest, h) && Equivalent(raw + rest, NoAlias, items + rest, h)
  }

  lemma TrackAppend(raw: seq<Entry>, items: seq<Entry>, h: Alias, e: Entry)
    requires Tracks(raw, items, h)
    ensures Tracks(raw + [e], items + [e], h)
  {
    forall rest | WellFormed(raw + [e] + rest, NoAlias)
      ensures WellFormed(items + [e] + rest, h) && Equivalent(raw + [e] + rest, NoAlias, items + [e] + rest, h)
    {
      assert raw + [e] + rest == raw + ([e] + rest) && items + [e] + rest == items + ([e] + rest);
    }
  }

  lemma WithoutAppend(items: seq<Entry>, rest: seq<Entry>, i: nat)
    requires i < |items|
    ensures Without(items + rest, i) == Without(items, i) + rest
  {
  }

  lemma EquivalentTrans(a: seq<Entry>, ha: Alias, b: seq<Entry>, hb: Alias, c: seq<Entry>, hc: Alias)
    requires Equivalent(a, ha, b, hb) && Equivalent(b, hb, c, hc)
    ensures Equivalent(a, ha, c, hc)
  {
  }

  lemma TrackAhead(raw: seq<Entry>, items: seq<Entry>, h: Alias, i: nat, j: nat)
    requires Tracks(raw, items, h) && i < j < |items| && items[i].Jump? && items[j] == Mark(items[i].l)
    requires forall k :: i < k < j ==> Quiet(items[k])
    ensures Tracks(raw, Without(items, i), h)
  {
    forall rest | WellFormed(raw + rest, NoAlias)
      ensures WellFormed(Without(items, i) + rest, h) && Equivalent(raw + rest, NoAlias, Without(items, i) + rest, h)
    {
      var code := items + rest;
      WithoutAppend(items, rest, i);
      WithoutDistinct(code, i);
      AheadEquivalent(code, h, i, j);
      EquivalentTrans(raw + rest, NoAlias, code, h, Without(code, i), h);
    }
  }

  lemma {:induction false} TrackLead(raw: seq<Entry>, items: seq<Entry>, h: Alias, i: nat, j: nat)
    requires Tracks(raw, items, h) && i < j < |items| && items[i].Mark? && items[j].Jump?
    requires Resolve(h, items[j].l) != items[i].l && forall k :: i < k < j ==> items[k].Decl?
    ensures Tracks(raw, Without(items, i), Redirect(items, h, i, j))
  {
    var g := Redirect(items, h, i, j);
    forall rest | WellFormed(raw + rest, NoAlias)
      ensures WellFormed(Without(items, i) + rest, g) && Equivalent(raw + rest, NoAlias, Without(items, i) + rest, g)
    {
      var code := items + rest;
      assert g == Redirect(code, h, i, j);
      WithoutAppend(items, rest, i);
      WithoutDistinct(code, i);
      LeadEquivalent(code, h, i, j);
      EquivalentTrans(raw + rest, NoAlias, code, h, Without(code, i), g);
      UnaliasedWithout(code, h, i, items[j].l);
    }
  }

  lemma UnaliasedWithout(code: seq<Entry>, h: Alias, i: nat, to: Label)
    requires WellFormed(code, h) && i < |code| && code[i].Mark?
    ensures Unaliased(Without(code, i), Equate(h, code[i].l, to))
  {
    var code' := Without(code, i);
    forall k | 0 <= k < |code'| && code'[k].Mark?
      ensures Resolve(Equate(h, code[i].l, to), code'[k].l) == code'[k].l
    {
      var k0 := if k < i then k else k + 1;
      assert code[k0] == code'[k] && code[k0].l != code[i].l;
    }
  }

  lemma TrackUnreached(raw: seq<Entry>, items: seq<Entry>, h: Alias, i: nat, j: nat)
    requires Tracks(raw, items, h) && j < i < |items| && items[i].Jump?
    requires items[j].Jump? || (items[j].Action? && !items[j].falls)
    requires forall k :: j < k < i ==> items[k].Decl?
    ensures Tracks(raw, Without(items, i), h)
  {
    forall rest | WellFormed(raw + rest, NoAlias)
      ensures WellFormed(Without(items, i) + rest, h) && Equivalent(raw + rest, NoAlias, Without(items, i) + rest, h)
    {
      var code := items + rest;
      WithoutAppend(items, rest, i);
      WithoutDistinct(code, i);
      UnreachedEquivalent(code, h, i, j);
      EquivalentTrans(raw + rest, NoAlias, code, h, Without(code, i), h);
    }
  }

  lemma TrackMerge(raw: seq<Entry>, items: seq<Entry>, h: Alias, i: nat)
    requires Tracks(raw, items, h) && 0 < i < |items| && items[i].Mark? && items[i - 1].Mark?
    ensures Tracks(raw, Without(items, i), Merge(items, h, i))
  {
    var g := Merge(items, h, i);
    forall rest | WellFormed(raw + rest, NoAlias)
      ensures WellFormed(Without(items, i) + rest, g) && Equivalent(raw + rest, NoAlias, Without(items, i) + rest, g)
    {
      var code := items + rest;
      WithoutAppend(items, rest, i);
      WithoutDistinct(code, i);
      MergeEquivalent(code, h, i);
      EquivalentTrans(raw + rest, NoAlias, code, h, Without(code, i), g);
      UnaliasedWithout(code, h, i, items[i - 1].l);
    }
  }

  /** Every label defined is still in the list or has become an alias. */
  ghost predicate Accounted(raw: seq<Entry>, items: seq<Entry>, links: map<Label, Label>) {
    forall l :: Mark(l) in raw ==> Mark(l) in items || l in links
  }

  /** Only declarations and labels are between i and the end. */
  predicate QuietBehind(items: seq<Entry>, i: int) {
    forall k :: i < k < |items| - 1 ==> 0 <= k && (items[k].Decl? || items[k].Mark?)
  }

  /** Only declarations are between i and the end. */
  predicate DeclsBehind(items: seq<Entry>, i: int) {
    forall k :: i < k < |items| - 1 ==> 0 <= k && items[k].Decl?
  }

  /** Behind the last forest no jump to the label at the end is left that would fall through to it. */
  ghost predicate NoJumpAhead(items: seq<Entry>, gen: nat, l: Label) {
    forall i :: gen <= i < |items| && items[i] == Jump(l) ==> !QuietBehind(items, i)
  }

  /** What comes right before the jump at the end lets control through, and is no label that could be an alias. */
  ghost predicate JumpNeeded(items: seq<Entry>, gen: nat, h: Alias) {
    items != [] && items[|items| - 1].Jump? &&
    forall i :: gen <= i < |items| - 1 && DeclsBehind(items, i) && !items[i].Decl? ==>
      (items[i].Action? && items[i].falls) || (items[i].Mark? && Resolve(h, items[|items| - 1].l) == items[i].l)
  }

  /** Control does not get past the last entry that is not a declaration. */
  ghost predicate Blocked(items: seq<Entry>, gen: nat) {
    exists i :: gen <= i < |items| && (items[i].Jump? || (items[i].Action? && !items[i].falls))
      && forall k :: i < k < |items| ==> items[k].Decl?
  }

  /** Where the scan for superfluous jumps ended. */
  lemma NoneAhead(items: seq<Entry>, gen: nat, l: Label, i: int)
    requires gen - 1 <= i < |items| - 1 && forall k :: i < k < |items| ==> Quiet(items[k])
    requires i >= gen ==> !Quiet(items[i]) && items[i] != Jump(l)
    ensures NoJumpAhead(items, gen, l)
  {
    forall j | gen <= j < |items| && items[j] == Jump(l) ensures !QuietBehind(items, j) {
      assert j < i && !Quiet(items[i]);
    }
  }

  class CodeList {
    var items: seq<Entry>
    var equatedto: map<Label, Label>
    var gen: nat      // the entries before it are in forests or followed by one
    var open: bool    // the last forest may still grow
    ghost var raw: seq<Entry>    // everything emitted, unedited
    ghost var h: Alias

    ghost predicate Valid()
      reads this
    {
      AliasOk(h) && equatedto == Links(h) && WellFormed(raw, NoAlias) && Tracks(raw, items, h)
      && Accounted(raw, items, equatedto) && gen <= |items|
    }

    constructor ()
      ensures Valid() && raw == []
    {
      items, equatedto, gen, open, raw, h := [], map[], 0, false, [], NoAlias;
      new;
      assert forall rest :: items + rest == rest && raw + rest == rest;
    }

    /** The label that p stands for. */
    method Equated(p: Label) returns (r: Label)
      requires Valid()
      ensures r == Resolve(h, p)
    {
      r := p;
      LinkStep(h, r);
      while r in equatedto
        invariant Resolve(h, r) == Resolve(h, p)
        decreases Hops(h, r)
      {
        LinkStep(h, r);
        r := equatedto[r];
      }
      LinkStep(h, r);
    }

    /** Does dst stand for the label l, which is not an alias itself? */
    method Equal(l: Label, dst: Label) returns (b: bool)
      requires Valid() && Resolve(h, l) == l
      ensures b <==> Resolve(h, dst) == l
    {
      var d := dst;
      while l != d
        invariant Resolve(h, d) == Resolve(h, dst)
        decreases Hops(h, d)
      {
        LinkStep(h, d);
        if d !in equatedto {
          return false;
        }
        d := equatedto[d];
      }
      return true;
    }

    /** A declaration or an action at the end. */
    method Emit(e: Entry)
      requires Valid() && (e.Decl? || e.Action?)
      requires e.Action? ==> forall i :: 0 <= i < |raw| && raw[i].Action? ==> raw[i].id != e.id
      modifies this
      ensures Valid() && raw == old(raw) + [e]
    {
      TrackAppend(raw, items, h, e);
      items, raw, open := items + [e], raw + [e], open && e.Action?;
    }

    /** Defines a label, and deletes the jumps to it that it makes superfluous. */
    method DefineLab(l: Label)
      requires Valid() && Mark(l) !in raw
      modifies this
      ensures Valid() && raw == old(raw) + [Mark(l)]
      ensures items != [] && items[|items| - 1] == Mark(l) && NoJumpAhead(items, gen, l)
    {
      TrackAppend(raw, items, h, Mark(l));
      items, raw, open := items + [Mark(l)], raw + [Mark(l)], false;
      var i := SkipQuiet(|items| - 1);
      while i >= gen && items[i] == Jump(l)
        invariant Valid() && raw == old(raw) + [Mark(l)]
        invariant gen - 1 <= i < |items| - 1 && items[|items| - 1] == Mark(l)
        invariant forall k :: i < k < |items| ==> Quiet(items[k])
        invariant i >= gen ==> !Quiet(items[i])
        decreases i
      {
        TrackAhead(raw, items, h, i, |items| - 1);
        WithoutMembers(items, i);
        items := Without(items, i);
        i := SkipQuiet(i);
      }
      NoneAhead(items, gen, l, i);
    }

    /** Ends the forest that is being built. */
    method Flush()
      requires Valid()
      modifies this`open
      ensures Valid() && !open
    {
      open := false;
    }

    /** Defines a label inside a forest: right after another label of the forest it only becomes an alias. */
    method LabelNode(l: Label)
      requires Valid() && Mark(l) !in raw
      modifies this
      ensures Valid() && raw == old(raw) + [Mark(l)] && open && gen == |items|
      ensures if old(open && gen == |items| > 0 && items[|items| - 1].Mark?)
              then items == old(items) && l in equatedto else items == old(items) + [Mark(l)]
    {
      TrackAppend(raw, items, h, Mark(l));
      raw := raw + [Mark(l)];
      var n := |items|;
      if open && gen == n > 0 && items[n - 1].Mark? {
        ghost var grown := items + [Mark(l)];
        TrackMerge(raw, grown, h, n);
        assert Without(grown, n) == items;
        assert raw + [] == raw && grown + [] == grown;
        h := Merge(grown, h, n);
        equatedto := equatedto[l := items[n - 1].l];
      } else {
        items, gen, open := items + [Mark(l)], n + 1, true;
      }
    }

    /** The last entry before `from` that is not a declaration or a label, or the last forest. */
    method SkipQuiet(from: int) returns (i: int)
      requires gen <= from <= |items|
      ensures gen - 1 <= i < from && (forall k :: i < k < from ==> Quiet(items[k])) && (i >= gen ==> !Quiet(items[i]))
    {
      i := from - 1;
      while i >= gen && Quiet(items[i])
        invariant gen - 1 <= i < from && forall k :: i < k < from ==> Quiet(items[k])
      {
        i := i - 1;
      }
    }

    /** The last entry before `from` that is not a declaration, or the last forest. */
    method SkipDecls(from: int) returns (i: int)
      requires gen <= from <= |items|
      ensures gen - 1 <= i < from && (forall k :: i < k < from ==> items[k].Decl?) && (i >= gen ==> !items[i].Decl?)
    {
      i := from - 1;
      while i >= gen && items[i].Decl?
        invariant gen - 1 <= i < from && forall k :: i < k < from ==> items[k].Decl?
      {
        i := i - 1;
      }
    }

    /** The label at i, with only declarations up to the jump at the end, becomes an alias of the jump's target. */
    method MakeAlias(i: int)
      requires Valid() && gen <= i < |items| - 1 && items[i].Mark? && items[|items| - 1].Jump?
      requires Resolve(h, items[|items| - 1].l) != items[i].l && forall k :: i < k < |items| - 1 ==> items[k].Decl?
      modifies this`items, this`equatedto, this`h
      ensures Valid() && items == Without(old(items), i)
    {
      assert raw + [] == raw && items + [] == items;
      TrackLead(raw, items, h, i, |items| - 1);
      equatedto := equatedto[items[i].l := items[|items| - 1].l];
      h := Redirect(items, h, i, |items| - 1);
      WithoutMembers(items, i);
      items := Without(items, i);
    }

    /** The jump at the end goes, because control never gets past entry i. */
    method DropJump(i: int)
      requires Valid() && gen <= i < |items| - 1 && items[|items| - 1].Jump?
      requires items[i].Jump? || (items[i].Action? && !items[i].falls)
      requires forall k :: i < k < |items| - 1 ==> items[k].Decl?
      modifies this`items
      ensures Valid() && items == old(items)[..|old(items)| - 1]
    {
      TrackUnreached(raw, items, h, |items| - 1, i);
      WithoutMembers(items, |items| - 1);
      assert Without(items, |items| - 1) == items[..|items| - 1];
      items := items[..|items| - 1];
    }

    /**
     A jump to p: labels just before it become aliases of p, and the jump is dropped if it cannot be reached. What is
     left in front of it then neither blocks it nor could be an alias.
     */
    method Branch(p: Label) returns (ghost dropped: bool)
      requires Valid()
      modifies this
      ensures Valid() && raw == old(raw) + [Jump(p)]
      ensures !dropped ==> items != [] && items[|items| - 1] == Jump(p) && JumpNeeded(items, gen, h)
      ensures dropped ==> Blocked(items, gen)
    {
      TrackAppend(raw, items, h, Jump(p));
      items, raw, open := items + [Jump(p)], raw + [Jump(p)], false;
      var i := SkipDecls(|items| - 1);
      var stop := false;
      while i >= gen && items[i].Mark? && !stop
        invariant Valid() && raw == old(raw) + [Jump(p)]
        invariant gen - 1 <= i < |items| - 1 && items[|items| - 1] == Jump(p)
        invariant forall k :: i < k < |items| - 1 ==> items[k].Decl?
        invariant i >= gen ==> !items[i].Decl?
        invariant stop ==> i >= gen && items[i].Mark? && Resolve(h, p) == items[i].l
        decreases i, !stop
      {
        Standing(raw, items, h, i);
        stop := Equal(items[i].l, p);
        if !stop {
          MakeAlias(i);
          i := SkipDecls(i);
        }
      }
      dropped := i >= gen && (items[i].Jump? || (items[i].Action? && !items[i].falls));
      if i >= gen && (items[i].Jump? || (items[i].Action? && !items[i].falls)) {
        DropJump(i);
        assert gen <= i < |items| && forall k :: i < k < |items| ==> items[k].Decl?;
      } else {
        Needed(items, gen, h, i);
      }
    }
  }

  /** Where the scan over the labels in front of a jump ended. */
  lemma {:induction false} Needed(items: seq<Entry>, gen: nat, h: Alias, i: int)
    requires gen - 1 <= i < |items| - 1 && items[|items| - 1].Jump? && DeclsBehind(items, i)
    requires i >= gen ==> !items[i].Decl? && !items[i].Jump? && (items[i].Action? ==> items[i].falls)
    requires i >= gen && items[i].Mark? ==> Resolve(h, items[|items| - 1].l) == items[i].l
    ensures JumpNeeded(items, gen, h)
  {
  }

  /** A label in the list stands for itself. */
  lemma {:induction false} Standing(raw: seq<Entry>, items: seq<Entry>, h: Alias, i: int)
    requires WellFormed(raw, NoAlias) && Tracks(raw, items, h) && 0 <= i < |items| && items[i].Mark?
    ensures Resolve(h, items[i].l) == items[i].l
  {
    assert raw + [] == raw && items + [] == items;
  }

  // ------------------------------------------------------------------------- traces

  /** What an action decides: to go on downwards or to go to a label. */
  datatype Choice = Down | To(l: Label)

  /** From stop s, the choices lead through the stops in `trace`. */
  ghost predicate Follows(code: seq<Entry>, h: Alias, s: Stop, choices: seq<Choice>, trace: seq<Stop>)
    decreases |choices|
  {
    |trace| == |choices| &&
    (choices == [] ||
     (s.At?
      && (match choices[0]
          case Down => ReachesAfter(code, h, s.id, trace[0])
          case To(l) => Arrives(code, h, Land(code, h, l), trace[0]))
      && Follows(code, h, trace[0], choices[1..], trace[1..])))
  }

  /** A run from the start. */
  ghost predicate Trace(code: seq<Entry>, h: Alias, first: Stop, choices: seq<Choice>, trace: seq<Stop>) {
    Reaches(code, h, 0, first) && Follows(code, h, first, choices, trace)
  }

  lemma {:induction false} FollowsAlike(a: seq<Entry>, ha: Alias, b: seq<Entry>, hb: Alias, s: Stop,
                                        choices: seq<Choice>, trace: seq<Stop>)
    requires Equivalent(a, ha, b, hb)
    ensures Follows(a, ha, s, choices, trace) <==> Follows(b, hb, s, choices, trace)
    decreases |choices|
  {
    if choices != [] && |trace| == |choices| {
      FollowsAlike(a, ha, b, hb, trace[0], choices[1..], trace[1..]);
    }
  }

  /** The edited list, with labels resolved, has exactly the runs of the list as emitted. */
  lemma SameTraces(c: CodeList, first: Stop, choices: seq<Choice>, trace: seq<Stop>)
    requires c.Valid()
    ensures Trace(c.raw, NoAlias, first, choices, trace) <==> Trace(c.items, c.h, first, choices, trace)
  {
    assert c.raw + [] == c.raw && c.items + [] == c.items;
    FollowsAlike(c.raw, NoAlias, c.items, c.h, first, choices, trace);
  }

  /** A label that was defined is in the list or an alias, and not both. */
  lemma ListedOrAliased(c: CodeList, l: Label)
    requires c.Valid() && Mark(l) in c.raw
    ensures Mark(l) in c.items <==> l !in c.equatedto
  {
    assert c.raw + [] == c.raw && c.items + [] == c.items;
    if Mark(l) in c.items {
      Fixed(c.h, l);
    }
  }
}