/** Mouse events injected on the service side (Service/InputDeviceXLib.cpp, Service/InputDeviceWindows.cpp). */
module MouseInput {

  datatype Button = Left | Middle | Right

  /** A button goes down or up. */
  datatype Click = Click(button: Button, down: bool)

  /** The three tests of one event, lines 214-238: a click for every button that changed. */
  function Change(b: Button, last: set<Button>, now: set<Button>): seq<Click>
  {
    if (b in last) != (b in now) then [Click(b, b in now)] else []
  }

  function Clicks(last: set<Button>, now: set<Button>): seq<Click>
  {
    Change(Left, last, now) + Change(Middle, last, now) + Change(Right, last, now)
  }

  /** The clicks of a sequence of events, from the buttons that are down. */
  function AllClicks(last: set<Button>, events: seq<set<Button>>): seq<Click>
    decreases |events|
  {
    if events == [] then [] else Clicks(last, events[0]) + AllClicks(events[0], events[1..])
  }

  /** The buttons that are down after a sequence of clicks. */
  function Replay(down: set<Button>, clicks: seq<Click>): set<Button>
    decreases |clicks|
  {
    if clicks == [] then down
    else Replay(if clicks[0].down then down + {clicks[0].button} else down - {clicks[0].button}, clicks[1..])
  }

  /** No button goes down that is down, or up that is up: each alternates. */
  ghost predicate Alternates(down: set<Button>, clicks: seq<Click>)
    decreases |clicks|
  {
    clicks == [] ||
    (&& (clicks[0].down <==> clicks[0].button !in down)
     && Alternates(if clicks[0].down then down + {clicks[0].button} else down - {clicks[0].button}, clicks[1..]))
  }

  lemma {:induction false} ReplayConcat(down: set<Button>, xs: seq<Click>, ys: seq<Click>)
    ensures Replay(down, xs + ys) == Replay(Replay(down, xs), ys)
    ensures Alternates(down, xs + ys) <==> Alternates(down, xs) && Alternates(Replay(down, xs), ys)
    decreases |xs|
  {
    if xs == [] {
      assert xs + ys == ys;
    } else {
      assert (xs + ys)[1..] == xs[1..] + ys;
      ReplayConcat(if xs[0].down then down + {xs[0].button} else down - {xs[0].button}, xs[1..], ys);
    }
  }

  lemma {:induction false} ChangeReplay(b: Button, down: set<Button>, last: set<Button>, now: set<Button>)
    requires b in down <==> b in last
    ensures var c := Change(b, last, now);
            && Alternates(down, c)
            && Replay(down, c) == (if b in now then down + {b} else down - {b})
  {
    var c := Change(b, last, now);
    if c != [] {
      assert c[1..] == [];
    } else {
      assert (if b in now then down + {b} else down - {b}) == down;
    }
  }

  lemma {:induction false} ClicksReplay(last: set<Button>, now: set<Button>)
    ensures Replay(last, Clicks(last, now)) == now && Alternates(last, Clicks(last, now))
  {
    var l, m, r := Change(Left, last, now), Change(Middle, last, now), Change(Right, last, now);
    ChangeReplay(Left, last, last, now);
    ChangeReplay(Middle, Replay(last, l), last, now);
    ReplayConcat(last, l, m);
    ChangeReplay(Right, Replay(last, l + m), last, now);
    ReplayConcat(last, l + m, r);
    var after := Replay(last, l + m + r);
    forall b ensures b in after <==> b in now {
      assert b == Left || b == Middle || b == Right;
    }
    assert after == now;
  }

  /** One event clicks the left button first and the right one last, each button that changed and no other, once. */
  lemma {:induction false} ClicksInOrder(last: set<Button>, now: set<Button>, c: seq<Click>)
    requires c == Clicks(last, now)
    ensures forall i, j :: 0 <= i < j < |c| ==>
              c[i].button != Right && c[j].button != Left && c[i].button != c[j].button
    ensures forall b :: (b in last) != (b in now) <==> exists i :: 0 <= i < |c| && c[i].button == b
    ensures forall i :: 0 <= i < |c| ==> (c[i].down <==> c[i].button in now)
  {
    var l, m, r := Change(Left, last, now), Change(Middle, last, now), Change(Right, last, now);
    assert c == l + m + r;
    forall b ensures (b in last) != (b in now) <==> exists i :: 0 <= i < |c| && c[i].button == b {
      if (b in last) != (b in now) {
        assert b == Left || b == Middle || b == Right;
        assert Change(b, last, now) == [Click(b, b in now)];
        assert Click(b, b in now) in c;
      }
    }
  }

  /** Replaying all clicks of any sequence of events gives the last buttons, and every button alternates. */
  lemma {:induction false} EventsReplay(last: set<Button>, events: seq<set<Button>>)
    ensures Replay(last, AllClicks(last, events)) == (if events == [] then last else events[|events| - 1])
    ensures Alternates(last, AllClicks(last, events))
    decreases |events|
  {
    if events != [] {
      ClicksReplay(last, events[0]);
      EventsReplay(events[0], events[1..]);
      ReplayConcat(last, Clicks(last, events[0]), AllClicks(events[0], events[1..]));
    }
  }

  class InputDeviceXLib {
    var m_LastButtons: set<Button>
    /** The clicks sent to the display. */
    var sent: seq<Click>

    constructor ()
      ensures m_LastButtons == {} && sent == []
    {
      m_LastButtons, sent := {}, [];
    }

    method MouseEvent(buttons: set<Button>)
      modifies this
      ensures m_LastButtons == buttons && sent == old(sent) + Clicks(old(m_LastButtons), buttons)
    {
      Test(Left, buttons);
      Test(Middle, buttons);
      Test(Right, buttons);
      m_LastButtons := buttons;
    }

    method Test(b: Button, buttons: set<Button>)
      modifies this`sent
      ensures sent == old(sent) + Change(b, m_LastButtons, buttons)
    {
      if (b in m_LastButtons) != (b in buttons) {
        sent := sent + [Click(b, b in buttons)];
      }
    }

    /** Any number of events: what was sent replays to the buttons that are down. */
    method MouseEvents(events: seq<set<Button>>)
      modifies this
      ensures sent == old(sent) + AllClicks(old(m_LastButtons), events)
      ensures m_LastButtons == if events == [] then old(m_LastButtons) else events[|events| - 1]
      ensures Replay(old(m_LastButtons), sent[|old(sent)|..]) == m_LastButtons
      decreases |events|
    {
      EventsReplay(m_LastButtons, events);
      if events != [] {
        MouseEvent(events[0]);
        MouseEvents(events[1..]);
      }
      assert sent[|old(sent)|..] == AllClicks(old(m_LastButtons), events);
    }
  }

  // ----- coordinates, InputDeviceWindows.cpp:126-133 -----

  const INT_MAX := 0x7FFF_FFFF

  /** A coordinate of a primary screen of `size` pixels as mouse_event wants it. */
  function Scaled(x: nat, size: nat): nat
    requires x < size && 2 <= size
  {
    x * 65535 / (size - 1)
  }

  /** The scaled coordinates run from 0 to 65535, in order. */
  lemma {:induction false} ScaledInOrder(x: nat, y: nat, size: nat)
    requires x <= y < size && 2 <= size
    ensures Scaled(x, size) <= Scaled(y, size) <= 65535
    ensures Scaled(0, size) == 0 && Scaled(size - 1, size) == 65535
  {
    var d := size - 1;
    QuotientMonotone(x * 65535, y * 65535, d);
    QuotientMonotone(y * 65535, 65535 * d, d);
    QuotientExact(65535, d);
  }

  /** The scaled coordinate is the largest whole number of 65535ths that does not pass the pixel. */
  lemma {:induction false} ScaledIsFloor(x: nat, size: nat, s: int)
    requires x < size && 2 <= size
    ensures s == Scaled(x, size) <==> s * (size - 1) <= x * 65535 < (s + 1) * (size - 1)
  {
    var q, d := Scaled(x, size), size - 1;
    assert q * d <= x * 65535 < (q + 1) * d;
    if s * d <= x * 65535 < (s + 1) * d && s != q {
      if s < q {
        Ordered(s + 1, q, d);
      } else {
        Ordered(q + 1, s, d);
      }
    }
  }

  lemma {:induction false} Ordered(a: int, b: int, d: nat)
    requires a <= b
    ensures a * d <= b * d
  {
  }

  lemma {:induction false} TimesMonotone(a: nat, b: nat, d: nat)
    requires a <= b
    ensures a * d <= b * d
  {
  }

  lemma {:induction false} QuotientMonotone(a: nat, b: nat, d: nat)
    requires a <= b && 0 < d
    ensures a / d <= b / d
  {
    var p, q := a / d, b / d;
    assert p * d <= a && b < (q + 1) * d;
    if q + 1 <= p {
      TimesMonotone(q + 1, p, d);
    }
  }

  lemma {:induction false} QuotientExact(k: nat, d: nat)
    requires 0 < d
    ensures k * d / d == k
  {
    var q := k * d / d;
    assert q * d <= k * d < (q + 1) * d;
    if q + 1 <= k {
      TimesMonotone(q + 1, k, d);
    }
  }

  /** On a screen of at most 65536 pixels different pixels stay different. */
  lemma {:induction false} ScaledInjective(x: nat, y: nat, size: nat)
    requires x < y < size <= 65536
    ensures Scaled(x, size) < Scaled(y, size)
  {
    var d := size - 1;
    var q := Scaled(x, size);
    assert q * d <= x * 65535;
    assert (q + 1) * d <= x * 65535 + 65535 <= y * 65535;
    QuotientMonotone((q + 1) * d, y * 65535, d);
    QuotientExact(q + 1, d);
  }

  /** The product is computed in 32 bits: it fits exactly up to coordinate 32768. */
  lemma {:induction false} ProductFitsIff(x: nat)
    ensures x * 65535 <= INT_MAX <==> x <= 32768
  {
  }
}
