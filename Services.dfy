/**
 * The service registry: service metadata keyed by service name, plus the
 * flag that says whether it changed since it was last delivered.
 */
module Services {

  datatype Service = Service(name: string, app: string, appType: string)

  /** `Service.Equal`: the field-by-field comparison of the source. */
  function Equal(s: Service, s2: Service): (r: bool)
    ensures r <==> s == s2
  {
    s.name == s2.name && s.app == s2.app && s.appType == s2.appType
  }

  /** The registry's state: the map from name to service and the "modified" flag. */
  datatype Registry = Registry(services: map<string, Service>, modified: bool)

  /**
   * `appendService`: store `s` under its name unless an equal service is
   * already stored there; the flag is raised exactly when the map changes.
   */
  function Upsert(reg: Registry, s: Service): (r: Registry)
    ensures r.services.Keys == reg.services.Keys + {s.name}
    ensures r.services[s.name] == s
    ensures forall k :: k in reg.services && k != s.name ==> r.services[k] == reg.services[k]
    ensures r.modified <==> reg.modified || r.services != reg.services
    ensures r.services == reg.services ==> r == reg
  {
    if s.name !in reg.services || !Equal(reg.services[s.name], s) then
      assert s.name in reg.services ==> reg.services[s.name := s][s.name] != reg.services[s.name];
      Registry(reg.services[s.name := s], true)
    else
      reg
  }

  /** Registering the same service twice is the same as registering it once. */
  lemma UpsertIdempotent(reg: Registry, s: Service)
    ensures Upsert(Upsert(reg, s), s) == Upsert(reg, s)
  {
  }

  /** The set of names that occur in a queue of services. */
  function Names(q: seq<Service>): (names: set<string>)
    ensures forall i :: 0 <= i < |q| ==> q[i].name in names
    ensures forall n :: n in names ==> exists i :: 0 <= i < |q| && q[i].name == n
  {
    set i | 0 <= i < |q| :: q[i].name
  }

  /** `drainServices`: apply every queued service, oldest first. */
  function UpsertAll(reg: Registry, q: seq<Service>): (r: Registry)
    ensures r.services.Keys == reg.services.Keys + Names(q)
    ensures reg.modified ==> r.modified
    decreases |q|
  {
    if q == [] then reg
    else
      assert Names(q) == {q[0].name} + Names(q[1..]) by {
        forall n | n in Names(q) ensures n in {q[0].name} + Names(q[1..]) {
          var i :| 0 <= i < |q| && q[i].name == n;
          if i > 0 { assert q[1..][i - 1] == q[i]; }
        }
      }
      UpsertAll(Upsert(reg, q[0]), q[1..])
  }

  /** Entry `i` is the last one in `q` for its name. */
  predicate LastForName(q: seq<Service>, i: int)
    requires 0 <= i < |q|
  {
    forall j :: i < j < |q| ==> q[j].name != q[i].name
  }

  /** After draining, a queued name maps to the last service queued under it. */
  lemma {:induction false} UpsertAllLastWins(reg: Registry, q: seq<Service>, i: int)
    requires 0 <= i < |q| && LastForName(q, i)
    ensures UpsertAll(reg, q).services[q[i].name] == q[i]
    decreases |q|
  {
    var next := Upsert(reg, q[0]);
    if i == 0 {
      assert q[0].name !in Names(q[1..]);
      UpsertAllKeepsUnqueued(next, q[1..], q[0].name);
    } else {
      assert LastForName(q[1..], i - 1) by {
        forall j | i - 1 < j < |q[1..]| ensures q[1..][j].name != q[1..][i - 1].name {
          assert q[1..][j] == q[j + 1];
        }
      }
      UpsertAllLastWins(next, q[1..], i - 1);
    }
  }

  /** Draining leaves every name that was never queued with its old entry. */
  lemma {:induction false} UpsertAllKeepsUnqueued(reg: Registry, q: seq<Service>, k: string)
    requires k in reg.services && k !in Names(q)
    ensures UpsertAll(reg, q).services[k] == reg.services[k]
    decreases |q|
  {
    if q != [] {
      assert q[0].name in Names(q);
      UpsertAllKeepsUnqueued(Upsert(reg, q[0]), q[1..], k);
    }
  }

  /**
   * Draining leaves the flag down only if the map is exactly as it was:
   * every change to the registry is visible to the next flush.
   */
  lemma {:induction false} UpsertAllFlagsChanges(reg: Registry, q: seq<Service>)
    ensures !UpsertAll(reg, q).modified ==> UpsertAll(reg, q) == reg
    decreases |q|
  {
    if q != [] {
      UpsertAllFlagsChanges(Upsert(reg, q[0]), q[1..]);
    }
  }
}
