/**
 The order in which classes are filled in. Filling in a class fills in others: to find its parent, for its fields and for
 its methods. A class is flagged as filled in before any of that, and has its table only between its fields and its methods,
 so another class can be derived from one that has no table yet.
 */
module FillOrder {
  import opened Options

  // A class: its parent, the classes that are filled in to find it, itself the last, then those of the fields, and, behind
  // the table, those of the methods and interfaces.
  datatype Class = Class(parent: Option<nat>, ahead: seq<nat>, fields: seq<nat>, behind: seq<nat>)

  predicate AllBelow(cs: seq<nat>, n: nat) {
    forall i :: 0 <= i < |cs| ==> cs[i] < n
  }

  // No class is its own parent.
  predicate ValidClass(c: Class, index: nat, n: nat) {
    && AllBelow(c.ahead, n) && AllBelow(c.fields, n) && AllBelow(c.behind, n)
    && (c.parent.Some? ==> c.parent.value != index && c.ahead != [] && c.ahead[|c.ahead| - 1] == c.parent.value)
  }

  predicate ValidWorld(w: seq<Class>) {
    forall c :: 0 <= c < |w| ==> ValidClass(w[c], c, |w|)
  }

  type World = w: seq<Class> | ValidWorld(w) witness []

  // Which classes are flagged as filled in, and which of them have their tables.
  datatype State = State(filled: set<nat>, tabled: set<nat>)

  ghost predicate ValidState(s: State, n: nat) {
    s.tabled <= s.filled && forall c <- s.filled :: c < n
  }

  const NOTHING := State({}, {})

  ghost function Begun(s: State): set<nat> {
    s.filled - s.tabled
  }

  ghost function AllClasses(n: nat): (all: set<nat>)
    ensures forall c: nat :: c in all <==> c < n
  {
    if n == 0 then {} else AllClasses(n - 1) + {n - 1}
  }

  // How many classes are left to begin.
  ghost function Left(n: nat, s: State): nat {
    |AllClasses(n) - s.filled|
  }

  // Filled in, or a class found its parent without a table: then nothing more is said.
  datatype Outcome = Done(state: State) | NoTable(derived: nat)

  // What one call may change.
  ghost predicate Grown(s: State, t: State, n: nat) {
    ValidState(t, n) && s.filled <= t.filled && s.tabled <= t.tabled && Begun(t) == Begun(s)
  }

  lemma FewerLeft(n: nat, s: State, t: State)
    requires ValidState(s, n) && ValidState(t, n) && s.filled <= t.filled
    ensures Left(n, t) <= Left(n, s)
    ensures s.filled != t.filled ==> Left(n, t) < Left(n, s)
  {
    var all := AllClasses(n);
    assert all - t.filled <= all - s.filled;
    Subset(all - t.filled, all - s.filled);
    if s.filled != t.filled {
      var c :| c in t.filled && c !in s.filled;
      assert c in all - s.filled && c !in all - t.filled;
      Subset(all - t.filled, all - s.filled - {c});
    }
  }

  lemma {:induction false} Subset(a: set<nat>, b: set<nat>)
    requires a <= b
    ensures |a| <= |b|
    decreases a
  {
    if a != {} {
      var c :| c in a;
      Subset(a - {c}, b - {c});
    }
  }

  function Flagged(s: State, c: nat): State {
    s.(filled := s.filled + {c})
  }

  function Tabled(s: State, c: nat): State {
    s.(tabled := s.tabled + {c})
  }

  lemma GrownTwice(s: State, t: State, u: State, n: nat)
    requires Grown(s, t, n) && Grown(t, u, n)
    ensures Grown(s, u, n)
  {
  }

  // What filling in a class may change: it is begun, and then it has its table.
  lemma GrownAround(s: State, c: nat, s1: State, s2: State, t: State, n: nat)
    requires ValidState(s, n) && c < n && c !in s.filled
    requires Grown(Flagged(s, c), s1, n) && Grown(s1, s2, n) && Grown(Tabled(s2, c), t, n)
    ensures Grown(s, t, n) && c in t.tabled
  {
    GrownTwice(Flagged(s, c), s1, s2, n);
    assert Begun(Flagged(s, c)) == Begun(s) + {c};
    assert Begun(Tabled(s2, c)) == Begun(s2) - {c} == Begun(s);
  }

  // MetaData_Fill_TypeDef.
  ghost function Fill(w: World, s: State, c: nat): (o: Outcome)
    requires ValidState(s, |w|) && c < |w|
    ensures o.Done? ==> Grown(s, o.state, |w|) && c in o.state.filled
    decreases Left(|w|, s), 0
  {
    if c in s.filled then Done(s)
    else
      FewerLeft(|w|, s, Flagged(s, c));
      match FillAll(w, Flagged(s, c), w[c].ahead)
      case NoTable(d) => NoTable(d)
      case Done(s1) =>
        if w[c].parent.Some? && w[c].parent.value !in s1.tabled then NoTable(c)
        else
          FewerLeft(|w|, Flagged(s, c), s1);
          match FillAll(w, s1, w[c].fields)
          case NoTable(d) => NoTable(d)
          case Done(s2) =>
            FewerLeft(|w|, s1, Tabled(s2, c));
            var o := FillAll(w, Tabled(s2, c), w[c].behind);
            if o.NoTable? then o
            else
              GrownAround(s, c, s1, s2, o.state, |w|);
              o
  }

  // One after the other.
  ghost function FillAll(w: World, s: State, cs: seq<nat>): (o: Outcome)
    requires ValidState(s, |w|) && AllBelow(cs, |w|)
    ensures o.Done? ==> Grown(s, o.state, |w|) && forall c <- cs :: c in o.state.filled
    decreases Left(|w|, s), |cs|
  {
    if cs == [] then Done(s)
    else
      match Fill(w, s, cs[0])
      case NoTable(d) => NoTable(d)
      case Done(s1) =>
        FewerLeft(|w|, s, s1);
        FillAll(w, s1, cs[1..])
  }

  // ---------------------------------------------------------------- routes

  // Whether filling in the class fills in the other one while it has no table, or at all.
  predicate Before(w: World, c: nat, other: nat) {
    c < |w| && (other in w[c].ahead || other in w[c].fields)
  }

  predicate Leads(w: World, c: nat, other: nat) {
    Before(w, c, other) || (c < |w| && other in w[c].behind)
  }

  // A route from the class, begun before it has its table and not back through it. Its end is on top.
  predicate Route(w: World, p: nat, route: Stack<nat>) {
    && route.Push? && route.top != p
    && if route.below.Empty? then Before(w, p, route.top) else Route(w, p, route.below) && Leads(w, route.below.top, route.top)
  }

  // No class leads like this to one derived from it.
  ghost predicate Sheltered(w: World) {
    forall p: nat, route: Stack<nat> :: Route(w, p, route) && route.top < |w| ==> w[route.top].parent != Some(p)
  }

  ghost predicate Reaches(w: World, p: nat, c: nat) {
    exists route: Stack<nat> :: Route(w, p, route) && route.top == c
  }

  lemma ReachesFurther(w: World, p: nat, c: nat, other: nat)
    requires p != other && if p == c then Before(w, p, other) else Reaches(w, p, c) && Leads(w, c, other)
    ensures Reaches(w, p, other)
  {
    if p == c {
      assert Route(w, p, Push(other, Stack.Empty));
    } else {
      var route :| Route(w, p, route) && route.top == c;
      assert Route(w, p, Push(other, route));
    }
  }

  // ---------------------------------------------------------------- what has been filled in

  // What a class leads to is filled in with it, and its parent has its table.
  ghost predicate Settled(w: World, c: nat, t: State) {
    && (forall other: nat :: Leads(w, c, other) ==> other in t.filled)
    && (c < |w| && w[c].parent.Some? ==> w[c].parent.value in t.tabled)
  }

  ghost predicate AllSettled(w: World, s: State, t: State) {
    forall c <- t.filled - s.filled :: Settled(w, c, t)
  }

  lemma SettledTwice(w: World, s: State, t: State, u: State)
    requires Grown(s, t, |w|) && Grown(t, u, |w|) && AllSettled(w, s, t) && AllSettled(w, t, u)
    ensures AllSettled(w, s, u)
  {
    forall c | c in u.filled - s.filled ensures Settled(w, c, u) {
      if c in t.filled {
        assert c in t.filled - s.filled;
      } else {
        assert c in u.filled - t.filled;
      }
    }
  }

  // The steps of filling in a class that is not yet.
  lemma Steps(w: World, s: State, c: nat) returns (s1: State, s2: State, t: State)
    requires ValidState(s, |w|) && c < |w| && c !in s.filled && Fill(w, s, c).Done?
    ensures Grown(Flagged(s, c), s1, |w|) && Grown(s1, s2, |w|) && Grown(Tabled(s2, c), t, |w|)
    ensures FillAll(w, Flagged(s, c), w[c].ahead) == Done(s1) && FillAll(w, s1, w[c].fields) == Done(s2)
    ensures FillAll(w, Tabled(s2, c), w[c].behind) == Done(t) && Fill(w, s, c) == Done(t)
    ensures w[c].parent.Some? ==> w[c].parent.value in s1.tabled
  {
    s1 := FillAll(w, Flagged(s, c), w[c].ahead).state;
    s2 := FillAll(w, s1, w[c].fields).state;
    t := FillAll(w, Tabled(s2, c), w[c].behind).state;
  }

  // What is left to do when the parent has been found.
  lemma FillUnfolds(w: World, s: State, c: nat, s1: State)
    requires ValidState(s, |w|) && c < |w| && c !in s.filled
    requires FillAll(w, Flagged(s, c), w[c].ahead) == Done(s1)
    requires w[c].parent.Some? ==> w[c].parent.value in s1.tabled
    ensures c in Begun(s1)
    ensures FillAll(w, s1, w[c].fields).NoTable? ==> Fill(w, s, c).NoTable?
    ensures
      var o := FillAll(w, s1, w[c].fields);
      o.Done? ==> c in Begun(o.state) && Fill(w, s, c) == FillAll(w, Tabled(o.state, c), w[c].behind)
  {
    assert c in Begun(Flagged(s, c));
  }

  lemma {:induction false} FillSettles(w: World, s: State, c: nat)
    requires ValidState(s, |w|) && c < |w| && Fill(w, s, c).Done?
    ensures AllSettled(w, s, Fill(w, s, c).state)
    decreases Left(|w|, s), 0
  {
    if c !in s.filled {
      var s1, s2, t := Steps(w, s, c);
      FewerLeft(|w|, s, Flagged(s, c));
      FewerLeft(|w|, Flagged(s, c), s1);
      FewerLeft(|w|, s1, Tabled(s2, c));
      FillAllSettles(w, Flagged(s, c), w[c].ahead);
      FillAllSettles(w, s1, w[c].fields);
      FillAllSettles(w, Tabled(s2, c), w[c].behind);
      SettledTwice(w, Flagged(s, c), s1, s2);
      SettledAround(w, s, c, s1, s2, t);
    }
  }

  lemma SettledAround(w: World, s: State, c: nat, s1: State, s2: State, t: State)
    requires ValidState(s, |w|) && c < |w| && c !in s.filled
    requires Grown(Flagged(s, c), s1, |w|) && Grown(s1, s2, |w|) && Grown(Tabled(s2, c), t, |w|)
    requires (forall other <- w[c].ahead :: other in s1.filled) && (forall other <- w[c].fields :: other in s2.filled)
    requires forall other <- w[c].behind :: other in t.filled
    requires w[c].parent.Some? ==> w[c].parent.value in s1.tabled
    requires AllSettled(w, Flagged(s, c), s2) && AllSettled(w, Tabled(s2, c), t)
    ensures AllSettled(w, s, t)
  {
    forall d | d in t.filled - s.filled ensures Settled(w, d, t) {
      if d in s2.filled && d != c {
        assert d in s2.filled - Flagged(s, c).filled;
      } else if d != c {
        assert d in t.filled - Tabled(s2, c).filled;
      }
    }
  }

  lemma {:induction false} FillAllSettles(w: World, s: State, cs: seq<nat>)
    requires ValidState(s, |w|) && AllBelow(cs, |w|) && FillAll(w, s, cs).Done?
    ensures AllSettled(w, s, FillAll(w, s, cs).state)
    decreases Left(|w|, s), |cs|
  {
    if cs != [] {
      var t := Fill(w, s, cs[0]).state;
      FewerLeft(|w|, s, t);
      FillSettles(w, s, cs[0]);
      FillAllSettles(w, t, cs[1..]);
      SettledTwice(w, s, t, FillAll(w, t, cs[1..]).state);
    }
  }

  // ---------------------------------------------------------------- when every class finds its parent's table

  // The ends of all routes are filled in before the class has its table.
  lemma {:induction false} RouteIsFilled(w: World, p: nat, route: Stack<nat>, t: State)
    requires Route(w, p, route) && AllSettled(w, Flagged(NOTHING, p), t)
    requires forall other: nat :: Before(w, p, other) ==> other in t.filled
    ensures Settled(w, route.top, t) && route.top in t.filled
    decreases route
  {
    if route.below.Push? {
      RouteIsFilled(w, p, route.below, t);
    }
    assert route.top in t.filled - Flagged(NOTHING, p).filled;
  }

  // If a class leads to one derived from it, then filling it in first fails.
  lemma RouteFails(w: World, p: nat, route: Stack<nat>)
    requires Route(w, p, route) && p < |w| && route.top < |w| && w[route.top].parent == Some(p)
    ensures Fill(w, NOTHING, p).NoTable?
  {
    if Fill(w, NOTHING, p).Done? {
      var s := Flagged(NOTHING, p);
      var s1, s2, t := Steps(w, NOTHING, p);
      FillAllSettles(w, s, w[p].ahead);
      FillAllSettles(w, s1, w[p].fields);
      SettledTwice(w, s, s1, s2);
      assert p in Begun(s2);
      RouteIsFilled(w, p, route, s2);
    }
  }

  // Every class that is begun leads to this one.
  ghost predicate Led(w: World, s: State, c: nat) {
    forall p <- Begun(s) :: p == c || Reaches(w, p, c)
  }

  ghost predicate AllLed(w: World, s: State, cs: seq<nat>) {
    forall c <- cs :: Led(w, s, c)
  }

  lemma LedFurther(w: World, s: State, c: nat, before: seq<nat>)
    requires Led(w, s, c) && c !in s.filled && c < |w|
    requires forall other <- before :: Before(w, c, other)
    ensures AllLed(w, Flagged(s, c), before)
  {
    forall other, p | other in before && p in Begun(Flagged(s, c)) && p != other ensures Reaches(w, p, other) {
      if p != c {
        assert p in Begun(s);
      }
      ReachesFurther(w, p, c, other);
    }
  }

  lemma LedBehind(w: World, s: State, c: nat)
    requires Led(w, s, c) && c < |w| && c !in Begun(s)
    ensures AllLed(w, s, w[c].behind)
  {
    forall other, p | other in w[c].behind && p in Begun(s) && p != other ensures Reaches(w, p, other) {
      ReachesFurther(w, p, c, other);
    }
  }

  lemma StillLed(w: World, s: State, t: State, cs: seq<nat>)
    requires AllLed(w, s, cs) && Begun(s) == Begun(t)
    ensures AllLed(w, t, cs)
  {
  }

  // What leads to a class is not its parent.
  lemma ParentIsNotBegun(w: World, s: State, c: nat, p: nat)
    requires Sheltered(w) && Led(w, s, c) && c < |w| && w[c].parent == Some(p)
    ensures p !in Begun(Flagged(s, c))
  {
    assert ValidClass(w[c], c, |w|);
    assert !Reaches(w, p, c);
    assert p !in Begun(s);
  }

  // So it has its table by then.
  lemma ParentIsTabled(w: World, s: State, c: nat, s1: State)
    requires Sheltered(w) && Led(w, s, c) && c < |w|
    requires Begun(s1) == Begun(Flagged(s, c)) && forall other <- w[c].ahead :: other in s1.filled
    ensures w[c].parent.Some? ==> w[c].parent.value in s1.tabled
  {
    if w[c].parent.Some? {
      assert ValidClass(w[c], c, |w|);
      ParentIsNotBegun(w, s, c, w[c].parent.value);
      assert w[c].ahead[|w[c].ahead| - 1] in w[c].ahead;
    }
  }

  // When the class has been begun, its fields can be filled in, and so can what is behind its table.
  lemma FieldsAreLed(w: World, s: State, c: nat, s1: State)
    requires Led(w, s, c) && c < |w| && c !in s.filled && Begun(s1) == Begun(Flagged(s, c))
    ensures AllLed(w, s1, w[c].fields)
  {
    LedFurther(w, s, c, w[c].fields);
    StillLed(w, Flagged(s, c), s1, w[c].fields);
  }

  lemma RestIsLed(w: World, s: State, c: nat, s2: State)
    requires Led(w, s, c) && c < |w| && c !in s.filled && ValidState(s, |w|) && Begun(s2) == Begun(Flagged(s, c))
    ensures AllLed(w, Tabled(s2, c), w[c].behind)
  {
    assert Begun(Flagged(s, c)) == Begun(s) + {c};
    assert Begun(Tabled(s2, c)) == Begun(s2) - {c} == Begun(s);
    LedBehind(w, s, c);
    StillLed(w, s, Tabled(s2, c), w[c].behind);
  }

  lemma {:induction false} ShelteredIsFilled(w: World, s: State, c: nat)
    requires Sheltered(w) && ValidState(s, |w|) && c < |w| && Led(w, s, c)
    ensures Fill(w, s, c).Done?
    decreases Left(|w|, s), 0
  {
    if c !in s.filled {
      FewerLeft(|w|, s, Flagged(s, c));
      LedFurther(w, s, c, w[c].ahead);
      ShelteredAreFilled(w, Flagged(s, c), w[c].ahead);
      var s1 := FillAll(w, Flagged(s, c), w[c].ahead).state;
      ParentIsTabled(w, s, c, s1);
      FewerLeft(|w|, Flagged(s, c), s1);
      ShelteredRest(w, s, c, s1);
    }
  }

  lemma {:induction false} ShelteredRest(w: World, s: State, c: nat, s1: State)
    requires Sheltered(w) && ValidState(s, |w|) && c < |w| && Led(w, s, c) && c !in s.filled
    requires FillAll(w, Flagged(s, c), w[c].ahead) == Done(s1) && (w[c].parent.Some? ==> w[c].parent.value in s1.tabled)
    requires Left(|w|, s1) < Left(|w|, s)
    ensures Fill(w, s, c).Done?
    decreases Left(|w|, s1), |w[c].fields| + |w[c].behind| + 1
  {
    FieldsAreLed(w, s, c, s1);
    ShelteredAreFilled(w, s1, w[c].fields);
    var s2 := FillAll(w, s1, w[c].fields).state;
    RestIsLed(w, s, c, s2);
    FewerLeft(|w|, s1, Tabled(s2, c));
    ShelteredAreFilled(w, Tabled(s2, c), w[c].behind);
  }

  lemma {:induction false} ShelteredAreFilled(w: World, s: State, cs: seq<nat>)
    requires Sheltered(w) && ValidState(s, |w|) && AllBelow(cs, |w|) && AllLed(w, s, cs)
    ensures FillAll(w, s, cs).Done?
    decreases Left(|w|, s), |cs|
  {
    if cs != [] {
      ShelteredIsFilled(w, s, cs[0]);
      var t := Fill(w, s, cs[0]).state;
      FewerLeft(|w|, s, t);
      StillLed(w, s, t, cs);
      ShelteredAreFilled(w, t, cs[1..]);
    }
  }

  // Whatever is filled in, and in whatever order.
  ghost predicate EveryOrderWorks(w: World) {
    forall cs: seq<nat> :: AllBelow(cs, |w|) ==> FillAll(w, NOTHING, cs).Done?
  }

  // Every class finds the table of its parent, whatever is filled in first, exactly if no class leads, before it has its
  // table, to one derived from it.
  lemma TablesAreThereExactlyWhenSheltered(w: World)
    ensures EveryOrderWorks(w) <==> Sheltered(w)
  {
    if Sheltered(w) {
      forall cs: seq<nat> | AllBelow(cs, |w|) ensures FillAll(w, NOTHING, cs).Done? {
        ShelteredAreFilled(w, NOTHING, cs);
      }
    } else {
      var p: nat, route: Stack<nat> :| Route(w, p, route) && route.top < |w| && w[route.top].parent == Some(p);
      assert ValidClass(w[route.top], route.top, |w|);
      RouteFails(w, p, route);
      assert FillAll(w, NOTHING, [p]).NoTable?;
    }
  }

  // An example: 0 is the root, and 1, derived from it, has a field of type 2, which is derived from 1.
  const ROOT := Class(None, [], [], [])
  const WITH_FIELD := Class(Some(0), [0], [2], [])
  const DERIVED := Class(Some(1), [1], [], [])

  lemma OnlyOne(w: World, s: State, c: nat)
    requires ValidState(s, |w|) && c < |w|
    ensures FillAll(w, s, [c]) == Fill(w, s, c)
  {
    match Fill(w, s, c)
    case NoTable(_) =>
    case Done(t) => assert FillAll(w, t, []) == Done(t);
  }

  lemma RootIsFilled(w: World, s: State)
    requires ValidState(s, |w|) && |w| > 0 && w[0] == ROOT && 0 !in s.filled
    ensures FillAll(w, s, [0]) == Done(State(s.filled + {0}, s.tabled + {0}))
  {
    OnlyOne(w, s, 0);
  }

  // Filled in from 1, 2 does not find the table of 1. Filled in from 2, all goes well.
  lemma FieldOfDerivedType()
    ensures
      var w := [ROOT, WITH_FIELD, DERIVED];
      ValidWorld(w) && Fill(w, NOTHING, 1) == NoTable(2) && Fill(w, NOTHING, 2).Done?
  {
    var w: World := [ROOT, WITH_FIELD, DERIVED];
    FromTheField(w);
    FromTheDerived(w);
  }

  lemma FromTheField(w: World)
    requires w == [ROOT, WITH_FIELD, DERIVED]
    ensures Fill(w, NOTHING, 1) == NoTable(2)
  {
    RootIsFilled(w, Flagged(NOTHING, 1));
    var s := State(Flagged(NOTHING, 1).filled + {0}, {} + {0});
    OnlyOne(w, s, 2);
    OnlyOne(w, Flagged(s, 2), 1);
    assert Fill(w, s, 2) == NoTable(2);
  }

  lemma FromTheDerived(w: World)
    requires w == [ROOT, WITH_FIELD, DERIVED]
    ensures Fill(w, NOTHING, 2).Done?
  {
    var s := Flagged(Flagged(NOTHING, 2), 1);
    RootIsFilled(w, s);
    var t := State(s.filled + {0}, {} + {0});
    OnlyOne(w, t, 2);
    assert Fill(w, Flagged(NOTHING, 2), 1) == Done(Tabled(t, 1));
    OnlyOne(w, Flagged(NOTHING, 2), 1);
  }
}
