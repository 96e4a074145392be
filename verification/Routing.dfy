/** The routing table (src/routing.rs): which bus a destination is sent to. */
module Routing {
  import opened Basics

  datatype Route = Container | Host

  datatype Routes = Routes(container: set<string>, host: set<string>, activatable: set<string>,
                           unique: map<string, Route>)

  const NO_ROUTES := Routes({}, {}, {}, map[])

  function Reregister(unique: map<string, Route>, oldOwner: string, newOwner: string, route: Route)
    : map<string, Route>
  {
    var left := if oldOwner != "" then unique - {oldOwner} else unique;
    if newOwner == "" then left else left[newOwner := route]
  }

  function NamesAfter(names: set<string>, name: string, newOwner: string): set<string> {
    if newOwner == "" then names - {name} else names + {name}
  }

  function OwnerChanged(r: Routes, bus: Route, name: string, oldOwner: string, newOwner: string): Routes {
    var unique := Reregister(r.unique, oldOwner, newOwner, bus);
    match bus
    case Container => r.(container := NamesAfter(r.container, name, newOwner), unique := unique)
    case Host => r.(host := NamesAfter(r.host, name, newOwner), unique := unique)
  }

  predicate IsUniqueName(name: string) { name != "" && name[0] == ':' }

  function RouteFor(r: Routes, destination: string): Route {
    if IsUniqueName(destination) then
      if destination in r.unique then r.unique[destination] else Host
    else if destination in r.container then Container
    else if destination in r.host then Host
    else if destination in r.activatable then Host
    else Host
  }

  /** The bus a name is owned on, the container first. */
  function OwnerRoute(r: Routes, name: string): Option<Route> {
    if name in r.container then Some(Container) else if name in r.host then Some(Host) else None
  }

  class RoutingTable {
    var containerNames: set<string>
    var hostNames: set<string>
    var hostActivatable: set<string>
    var uniqueNames: map<string, Route>

    function Value(): Routes
      reads this
    {
      Routes(containerNames, hostNames, hostActivatable, uniqueNames)
    }

    constructor ()
      ensures Value() == NO_ROUTES
    {
      containerNames, hostNames, hostActivatable, uniqueNames := {}, {}, {}, map[];
    }

    method OnContainerNameChange(name: string, oldOwner: string, newOwner: string)
      modifies this
      ensures Value() == OwnerChanged(old(Value()), Container, name, oldOwner, newOwner)
    {
      if oldOwner != "" {
        uniqueNames := uniqueNames - {oldOwner};
      }
      if newOwner == "" {
        containerNames := containerNames - {name};
      } else {
        containerNames := containerNames + {name};
        uniqueNames := uniqueNames[newOwner := Container];
      }
    }

    method OnHostNameChange(name: string, oldOwner: string, newOwner: string)
      modifies this
      ensures Value() == OwnerChanged(old(Value()), Host, name, oldOwner, newOwner)
    {
      if oldOwner != "" {
        uniqueNames := uniqueNames - {oldOwner};
      }
      if newOwner == "" {
        hostNames := hostNames - {name};
      } else {
        hostNames := hostNames + {name};
        uniqueNames := uniqueNames[newOwner := Host];
      }
    }

    method GetNameOwnerRoute(name: string) returns (route: Option<Route>)
      ensures route == OwnerRoute(Value(), name)
    {
      if name in containerNames {
        route := Some(Container);
      } else if name in hostNames {
        route := Some(Host);
      } else {
        route := None;
      }
    }

    method NameHasOwner(name: string) returns (owned: bool)
      ensures owned <==> OwnerRoute(Value(), name).Some?
    {
      owned := name in containerNames || name in hostNames;
    }

    method FindRoute(destination: string) returns (route: Route)
      ensures route == RouteFor(Value(), destination)
    {
      if IsUniqueName(destination) {
        if destination in uniqueNames {
          return uniqueNames[destination];
        }
        return Host;
      }
      if destination in containerNames {
        return Container;
      }
      if destination in hostNames || destination in hostActivatable {
        return Host;
      }
      route := Host;
    }
  }

  // ---- runs of owner changes seen on either bus ----

  datatype Change = Change(bus: Route, name: string, oldOwner: string, newOwner: string)

  function AfterChanges(r: Routes, changes: seq<Change>): Routes {
    if changes == [] then r
    else
      var k := |changes| - 1;
      var c := changes[k];
      OwnerChanged(AfterChanges(r, changes[..k]), c.bus, c.name, c.oldOwner, c.newOwner)
  }

  /** The change at `i` is the latest of `name` on that bus. */
  ghost predicate LatestOf(changes: seq<Change>, bus: Route, name: string, i: nat) {
    && i < |changes| && changes[i].bus == bus && changes[i].name == name
    && forall j :: i < j < |changes| ==> changes[j].bus != bus || changes[j].name != name
  }

  ghost predicate NeverChanged(changes: seq<Change>, bus: Route, name: string) {
    forall j :: 0 <= j < |changes| ==> changes[j].bus != bus || changes[j].name != name
  }

  /** By the changes seen, `name` is owned on that bus: its latest change there left it an
      owner, or there was none and it was owned to begin with. */
  ghost predicate Owned(r: Routes, changes: seq<Change>, bus: Route, name: string) {
    || (exists i: nat :: LatestOf(changes, bus, name, i) && changes[i].newOwner != "")
    || (NeverChanged(changes, bus, name) && name in match bus case Container => r.container case Host => r.host)
  }

  lemma OwnedStep(r: Routes, changes: seq<Change>, bus: Route, name: string)
    requires changes != []
    ensures var k := |changes| - 1;
            var c := changes[k];
            Owned(r, changes, bus, name) <==>
            if c.bus == bus && c.name == name then c.newOwner != "" else Owned(r, changes[..k], bus, name)
  {
    var k := |changes| - 1;
    var c, before := changes[k], changes[..k];
    if c.bus == bus && c.name == name {
      assert LatestOf(changes, bus, name, k);
    } else {
      forall i: nat ensures LatestOf(changes, bus, name, i) <==> LatestOf(before, bus, name, i) {
        LatestStep(changes, bus, name, i);
      }
    }
  }

  lemma LatestStep(changes: seq<Change>, bus: Route, name: string, i: nat)
    requires changes != []
    requires var c := changes[|changes| - 1]; c.bus != bus || c.name != name
    ensures LatestOf(changes, bus, name, i) <==> LatestOf(changes[..|changes| - 1], bus, name, i)
  {
  }

  /** After any interleaving of changes on the two buses, the table holds a name for a bus
      exactly when it is owned there by those changes. */
  lemma {:induction false} NamesFollowChanges(r: Routes, changes: seq<Change>, name: string)
    ensures name in AfterChanges(r, changes).container <==> Owned(r, changes, Container, name)
    ensures name in AfterChanges(r, changes).host <==> Owned(r, changes, Host, name)
  {
    if changes == [] {
    } else {
      NamesFollowChanges(r, changes[..|changes| - 1], name);
      OwnedStep(r, changes, Container, name);
      OwnedStep(r, changes, Host, name);
    }
  }

  /** Container services shadow host services: a well-known name is sent to the container
      exactly when it is owned there, whatever the host did, and to the host otherwise.
      The owner queries answer accordingly. */
  lemma ContainerTakesPriority(r: Routes, changes: seq<Change>, name: string)
    ensures var t := AfterChanges(r, changes);
            && (!IsUniqueName(name) ==>
                  RouteFor(t, name) == if Owned(r, changes, Container, name) then Container else Host)
            && OwnerRoute(t, name) ==
               if Owned(r, changes, Container, name) then Some(Container)
               else if Owned(r, changes, Host, name) then Some(Host) else None
  {
    NamesFollowChanges(r, changes, name);
  }

  // ---- unique names ----

  predicate Mentions(c: Change, u: string) { c.oldOwner == u || c.newOwner == u }

  /** The change at `i` is the latest that mentions `u`. */
  ghost predicate LatestMention(changes: seq<Change>, u: string, i: nat) {
    i < |changes| && Mentions(changes[i], u) && forall j :: i < j < |changes| ==> !Mentions(changes[j], u)
  }

  lemma {:induction false} Registered(r: Routes, changes: seq<Change>, u: string, i: nat)
    requires IsUniqueName(u) && LatestMention(changes, u, i)
    ensures RouteFor(AfterChanges(r, changes), u) == if changes[i].newOwner == u then changes[i].bus else Host
  {
    var k := |changes| - 1;
    if i == k {
    } else {
      assert !Mentions(changes[k], u);
      Registered(r, changes[..k], u, i);
    }
  }

  lemma {:induction false} NotMentioned(r: Routes, changes: seq<Change>, u: string)
    requires IsUniqueName(u) && forall j :: 0 <= j < |changes| ==> !Mentions(changes[j], u)
    ensures RouteFor(AfterChanges(r, changes), u) == RouteFor(r, u)
  {
    if changes == [] {
    } else {
      assert !Mentions(changes[|changes| - 1], u);
      NotMentioned(r, changes[..|changes| - 1], u);
    }
  }

  /** After any changes on both buses a unique name is sent to the bus whose change made it
      an owner, if no later change mentions it; to the host if the latest change that
      mentions it took a name away from it; and where it went before if none mentions it. */
  lemma UniqueNameFollowsOwner(r: Routes, changes: seq<Change>, u: string)
    requires IsUniqueName(u)
    ensures var route := RouteFor(AfterChanges(r, changes), u);
            && (forall i: nat :: LatestMention(changes, u, i) ==>
                  route == if changes[i].newOwner == u then changes[i].bus else Host)
            && ((forall j :: 0 <= j < |changes| ==> !Mentions(changes[j], u)) ==> route == RouteFor(r, u))
    ensures u !in r.unique ==> RouteFor(r, u) == Host
  {
    forall i: nat | LatestMention(changes, u, i)
      ensures RouteFor(AfterChanges(r, changes), u) == if changes[i].newOwner == u then changes[i].bus else Host
    {
      Registered(r, changes, u, i);
    }
    if forall j :: 0 <= j < |changes| ==> !Mentions(changes[j], u) {
      NotMentioned(r, changes, u);
    }
  }
}
