/** Both ends of selective repeat as they run, joined by the medium. */
module SelectiveRepeatRun {
  import opened Collections
  import opened Packets
  import opened SelectiveRepeat
  import opened SelectiveRepeatSafety
  import opened SelectiveRepeatCode

  class Connection {
    const a: SenderNode
    const b: ReceiverNode
    var toB: seq<Packet>
    var toA: seq<Packet>
    // the history
    ghost var given: seq<Payload>
    ghost var sent: seq<Packet>

    /** Neither end's state overlaps the other's. */
    ghost predicate Valid()
      reads this, a, a.list, a.list.Repr, b
    {
      && a.Valid() && b.Valid() && a.ring != b.ring
      && (this as object) !in a.list.Repr && (b as object) !in a.list.Repr && (b.ring as object) !in a.list.Repr
    }

    ghost function View(): System
      requires Valid()
      reads this, a, a.ring, a.list, a.list.Repr, b, b.ring
    {
      System(a.View(), b.View(), toB, toA, given, sent, b.upward)
    }

    constructor ()
      ensures Valid() && Initial(View()) && fresh(a) && fresh(a.ring) && fresh(a.list.Repr) && fresh(b) && fresh(b.ring)
    {
      a := new SenderNode();
      b := new ReceiverNode();
      toB, toA, given, sent := [], [], [], [];
    }

    method HandleGiven(m: Payload, fates: seq<Fate>)
      requires Valid()
      modifies this, a, a.ring, a.list.Repr
      ensures Valid() && fresh(a.list.Repr - old(a.list.Repr))
      ensures View() == Next(old(View()), Step(FromLayer5(m), fates))
    {
      var logged := |a.wire|;
      a.HandleOutput(m);
      ghost var out := a.wire[logged..];
      var through := Carry(a.wire[logged..], fates);
      toB, given, sent := toB + through, given + [m], sent + out;
    }

    method HandleTick(fates: seq<Fate>)
      requires Valid()
      modifies this, a, a.ring, a.list.Repr
      ensures Valid() && fresh(a.list.Repr - old(a.list.Repr))
      ensures View() == Next(old(View()), Step(Timer, fates))
    {
      var logged := |a.wire|;
      a.HandleTimer();
      var through := Carry(a.wire[logged..], fates);
      toB := toB + through;
    }

    method HandleAck(i: nat, fates: seq<Fate>)
      requires Valid() && i < |toA|
      modifies this, a, a.ring, a.list.Repr
      ensures Valid() && fresh(a.list.Repr - old(a.list.Repr))
      ensures View() == Next(old(View()), Step(ArriveAtA(i), fates))
    {
      ghost var was := View();
      var logged := |a.wire|;
      a.HandleInput(toA[i]);
      ghost var out := a.wire[logged..];
      var through := Carry(a.wire[logged..], fates);
      toA, toB, sent := Without(toA, i), toB + through, sent + out;
      assert View() == Next(was, Step(ArriveAtA(i), fates)) by {
        AckIs(was, i, fates, View());
      }
    }

    method HandleData(i: nat, fates: seq<Fate>)
      requires Valid() && i < |toB|
      modifies this, b, b.ring
      ensures Valid()
      ensures View() == Next(old(View()), Step(ArriveAtB(i), fates))
    {
      var logged := |b.wire|;
      b.HandleInput(toB[i]);
      var through := Carry(b.wire[logged..], fates);
      toB, toA := Without(toB, i), toA + through;
    }

    method Turn(step: Step)
      requires Valid()
      modifies this, a, a.ring, a.list.Repr, b, b.ring
      ensures Valid() && fresh(a.list.Repr - old(a.list.Repr))
      ensures View() == Next(old(View()), step)
    {
      match step.event {
        case FromLayer5(m) => HandleGiven(m, step.fates);
        case Timer => HandleTick(step.fates);
        case ArriveAtA(i) =>
          if i < |toA| {
            HandleAck(i, step.fates);
          }
        case ArriveAtB(i) =>
          if i < |toB| {
            HandleData(i, step.fates);
          }
      }
    }

    /** Any run from the start: B's layer 5 has exactly the messages A numbered below B's base, in that order, and
        no branch that reports a bug was taken. */
    method Simulate(steps: seq<Step>)
      requires Valid() && Initial(View())
      modifies this, a, a.ring, a.list.Repr, b, b.ring
      ensures Valid() && View() == After(old(View()), steps)
      ensures Numbered(sent) && b.base <= |sent| && b.upward == Payloads(sent)[..b.base]
      ensures multiset(given) == multiset(Payloads(sent)) + multiset(a.list.contents)
      ensures a.bugs == 0 && b.bugs == 0
    {
      ghost var final := After(View(), steps);
      StartKeeps(View());
      RunKeeps(View(), steps);
      var i := 0;
      while i < |steps|
        invariant 0 <= i <= |steps| && Valid() && fresh(a.list.Repr - old(a.list.Repr))
        invariant After(View(), steps[i..]) == final
      {
        assert steps[i..][1..] == steps[i + 1..];
        Turn(steps[i]);
        i := i + 1;
      }
    }
  }

  lemma AckIs(s: System, i: nat, fates: seq<Fate>, s': System)
    requires i < |s.toA|
    requires var (a, out) := SenderInput(s.a, s.toA[i]);
      s' == s.(a := a, toA := Without(s.toA, i), toB := s.toB + Transmit(out, fates), sent := s.sent + out)
    ensures s' == Next(s, Step(ArriveAtA(i), fates))
  {
  }

  /** What the medium makes of packets handed to it. */
  method Carry(ps: seq<Packet>, fates: seq<Fate>) returns (through: seq<Packet>)
    ensures through == Transmit(ps, fates)
  {
    through := [];
    var i := 0;
    while i < |ps| && i < |fates|
      invariant 0 <= i <= |ps| && i <= |fates|
      invariant through + Transmit(ps[i..], fates[i..]) == Transmit(ps, fates)
    {
      assert ps[i..][1..] == ps[i + 1..] && fates[i..][1..] == fates[i + 1..];
      through := through + Emerging(ps[i], fates[i]);
      i := i + 1;
    }
    through := through + ps[i..];
  }
}
