/** Linear resources shared by concurrent threads.

    A resource is at any moment in exactly one place: in the hand of one thread, at one
    position of a shared queue, or at one position of the log of finished resources.  The
    driver's requests and messages, and the service's buffers, are all tracked this way. */
module Ledgers {

  datatype Ledger<T> = Ledger(
    all: set<T>,                // every resource that ever entered
    held: map<nat, set<T>>,     // what each thread has in hand
    queue: seq<T>,              // the shared queue
    finished: seq<T>)           // in order of finishing

  datatype Place = InHand(thread: nat) | Queued(index: nat) | Finished(at: nat)

  ghost predicate NoDup<T(!new)>(q: seq<T>) {
    forall i, j :: 0 <= i < j < |q| ==> q[i] != q[j]
  }

  ghost predicate Holds<T(!new)>(l: Ledger<T>, t: nat, x: T) {
    t in l.held && x in l.held[t]
  }

  /** Every resource is in one place, and every place holds a resource that entered. */
  ghost predicate Linear<T(!new)>(l: Ledger<T>) {
    && NoDup(l.queue)
    && NoDup(l.finished)
    && (forall x :: x in l.queue ==> x in l.all && x !in l.finished)
    && (forall x :: x in l.finished ==> x in l.all)
    && (forall t, x :: Holds(l, t, x) ==> x in l.all && x !in l.queue && x !in l.finished)
    && (forall t, u, x :: Holds(l, t, x) && Holds(l, u, x) ==> t == u)
    && (forall x :: x in l.all ==> x in l.queue || x in l.finished || exists t :: Holds(l, t, x))
  }

  /** All the places where x is, counted with multiplicity. */
  ghost function Places<T(!new)>(l: Ledger<T>, x: T): set<Place> {
    (set t | t in l.held && x in l.held[t] :: InHand(t))
    + (set i: nat | i < |l.queue| && l.queue[i] == x :: Queued(i))
    + (set k: nat | k < |l.finished| && l.finished[k] == x :: Finished(k))
  }

  lemma LinearIsOnePlace<T(!new)>(l: Ledger<T>, x: T)
    requires Linear(l)
    ensures x in l.all ==> exists p :: Places(l, x) == {p}
    ensures x !in l.all ==> Places(l, x) == {}
  {
    if x in l.all {
      var p;
      if x in l.queue {
        var i: nat :| i < |l.queue| && l.queue[i] == x;
        p := Queued(i);
      } else if x in l.finished {
        var k: nat :| k < |l.finished| && l.finished[k] == x;
        p := Finished(k);
      } else {
        var t :| Holds(l, t, x);
        p := InHand(t);
      }
      assert forall t :: InHand(t) in Places(l, x) ==> Holds(l, t, x);
      assert Places(l, x) == {p};
    } else {
      assert forall t :: InHand(t) in Places(l, x) ==> Holds(l, t, x);
    }
  }

  // The moves a resource can make.

  ghost function SetHeld<T>(l: Ledger<T>, t: nat, hs: set<T>): Ledger<T> {
    l.(held := l.held[t := hs])
  }

  lemma Keep<T(!new)>(l: Ledger<T>, t: nat)
    requires Linear(l)
    ensures Linear(SetHeld(l, t, if t in l.held then l.held[t] else {}))
  {
    var l' := SetHeld(l, t, if t in l.held then l.held[t] else {});
    assert forall u, x :: Holds(l', u, x) <==> Holds(l, u, x);
  }

  ghost function EnterTo<T>(l: Ledger<T>, t: nat, x: T): Ledger<T> {
    SetHeld(l, t, {x}).(all := l.all + {x})
  }

  lemma Enter<T(!new)>(l: Ledger<T>, t: nat, x: T)
    requires Linear(l) && t !in l.held && x !in l.all
    ensures Linear(EnterTo(l, t, x))
  {
    var l' := EnterTo(l, t, x);
    assert forall u, y :: Holds(l', u, y) <==> Holds(l, u, y) || (u == t && y == x);
    assert Holds(l', t, x);
  }

  ghost function PopTo<T>(l: Ledger<T>, t: nat, i: nat): Ledger<T>
    requires t in l.held && i < |l.queue|
  {
    SetHeld(l, t, l.held[t] + {l.queue[i]}).(queue := l.queue[..i] + l.queue[i + 1..])
  }

  lemma PopAt<T(!new)>(l: Ledger<T>, t: nat, i: nat)
    requires Linear(l) && t in l.held && i < |l.queue|
    ensures Linear(PopTo(l, t, i))
  {
    var l', x := PopTo(l, t, i), l.queue[i];
    assert forall u, y :: Holds(l', u, y) <==> Holds(l, u, y) || (u == t && y == x);
    assert forall y :: y in l'.queue <==> y in l.queue && y != x;
    assert Holds(l', t, x);
  }

  ghost function PushFrom<T>(l: Ledger<T>, t: nat, x: T): Ledger<T>
    requires t in l.held
  {
    SetHeld(l, t, l.held[t] - {x}).(queue := l.queue + [x])
  }

  lemma Push<T(!new)>(l: Ledger<T>, t: nat, x: T)
    requires Linear(l) && Holds(l, t, x)
    ensures Linear(PushFrom(l, t, x))
  {
    var l' := PushFrom(l, t, x);
    assert forall u, y :: Holds(l', u, y) <==> Holds(l, u, y) && y != x;
  }

  ghost function FinishFrom<T>(l: Ledger<T>, t: nat, x: T): Ledger<T>
    requires t in l.held
  {
    SetHeld(l, t, l.held[t] - {x}).(finished := l.finished + [x])
  }

  lemma Finish<T(!new)>(l: Ledger<T>, t: nat, x: T)
    requires Linear(l) && Holds(l, t, x)
    ensures Linear(FinishFrom(l, t, x))
  {
    var l' := FinishFrom(l, t, x);
    assert forall u, y :: Holds(l', u, y) <==> Holds(l, u, y) && y != x;
  }

  ghost function GiveTo<T>(l: Ledger<T>, t: nat, u: nat, x: T): Ledger<T>
    requires t in l.held && u in l.held
  {
    l.(held := l.held[t := l.held[t] - {x}][u := l.held[u] + {x}])
  }

  lemma Give<T(!new)>(l: Ledger<T>, t: nat, u: nat, x: T)
    requires Linear(l) && Holds(l, t, x) && u in l.held && u != t
    ensures Linear(GiveTo(l, t, u, x))
  {
    var l' := GiveTo(l, t, u, x);
    forall v, y ensures Holds(l', v, y) <==> if y == x then v == u else Holds(l, v, y) {
      assert Holds(l, v, x) ==> v == t;
    }
    assert Holds(l', u, x);
  }

  lemma Drain<T(!new)>(l: Ledger<T>)
    requires Linear(l)
    ensures Linear(l.(queue := [], finished := l.finished + l.queue))
  {
    var l' := l.(queue := [], finished := l.finished + l.queue);
    forall i, j | 0 <= i < j < |l'.finished| ensures l'.finished[i] != l'.finished[j] {
      if i < |l.finished| <= j {
        assert l'.finished[i] in l.finished && l'.finished[j] in l.queue;
      }
    }
    assert forall u, y :: Holds(l', u, y) <==> Holds(l, u, y);
  }

  /** Without duplicates, a sequence holds each of its elements once. */
  lemma {:induction false} NoDupCount<T(!new)>(q: seq<T>, x: T)
    requires NoDup(q)
    ensures multiset(q)[x] == if x in q then 1 else 0
  {
    if q != [] {
      var n := |q| - 1;
      assert q == q[..n] + [q[n]];
      NoDupCount(q[..n], x);
    }
  }

  /** Everything that some thread has in hand. */
  ghost function InHands<T(!new)>(l: Ledger<T>): set<T> {
    set t, x | t in l.held && x in l.held[t] :: x
  }

  /** Conservation: what entered is what is in hand, queued or finished, counted. */
  lemma Conservation<T(!new)>(l: Ledger<T>)
    requires Linear(l)
    ensures multiset(l.all) == multiset(InHands(l)) + multiset(l.queue) + multiset(l.finished)
  {
    var total := multiset(InHands(l)) + multiset(l.queue) + multiset(l.finished);
    forall x ensures multiset(l.all)[x] == total[x] {
      NoDupCount(l.queue, x);
      NoDupCount(l.finished, x);
      if x in InHands(l) {
        var t :| t in l.held && x in l.held[t];
        assert Holds(l, t, x);
      } else {
        assert forall t :: !Holds(l, t, x);
      }
    }
  }
}
