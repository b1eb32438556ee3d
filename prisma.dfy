/** Whether the database backend is requested, and the process-wide database client
    (lib/prisma.ts): built at most once, and once it has failed to load the backend
    stays unavailable for the rest of the process. */
module Prisma {
  import opened Types

  /** The process environment the data layer reads: `RIMS_DATA_MODE`, `DATABASE_URL`
      (absent is `None`) and whether `NODE_ENV` is "production". */
  datatype Env = Env(dataMode: Option<string>, databaseUrl: Option<string>, production: bool)

  /** `Boolean(v)` for an optional string: present and non-empty. */
  predicate Truthy(v: Option<string>) {
    v.Some? && v.value != ""
  }

  /** `isPrismaEnabledByEnv` (also `isDatabaseModeRequested`). */
  function IsPrismaEnabledByEnv(env: Env): (b: bool)
  {
    if env.dataMode == Some("memory") then false else Truthy(env.databaseUrl)
  }

  /** Memory mode switches the database off whatever the URL says; otherwise the
      database is on exactly when the URL is non-empty. */
  lemma EnabledExactly(env: Env)
    ensures env.dataMode == Some("memory") ==> !IsPrismaEnabledByEnv(env)
    ensures env.dataMode != Some("memory") ==>
      (IsPrismaEnabledByEnv(env) <==> env.databaseUrl.Some? && |env.databaseUrl.value| > 0)
  {
  }

  /** The globals of lib/prisma.ts as a value: whether a client is held, whether the
      backend was found unavailable, whether the warning flag is set, and how many client
      constructions and "Prisma unavailable" warnings there have been. */
  datatype GateState = GateState(client: bool, unavailable: bool, warned: bool, constructions: nat, warnings: nat)

  /** A client is constructed at most once, the warning is printed at most once and
      only after its flag is set, and a loaded client is never marked unavailable. */
  predicate GateValid(g: GateState) {
    && g.constructions == (if g.client then 1 else 0)
    && g.warnings <= (if g.warned then 1 else 0)
    && !(g.client && g.unavailable)
  }

  /** What one `getPrismaClient` call does to the globals: nothing when the database is
      off, already unavailable or already connected; otherwise the client is built when
      it loads, and the process is marked unavailable (with one warning outside
      production) when it does not. */
  function GateStep(g: GateState, env: Env, loads: bool): GateState
  {
    if !IsPrismaEnabledByEnv(env) || g.unavailable || g.client then g
    else if loads then g.(client := true, constructions := g.constructions + 1)
    else
      var warn := !env.production && !g.warned;
      g.(unavailable := true, warned := g.warned || !env.production,
         warnings := g.warnings + (if warn then 1 else 0))
  }

  /** The globals after a run of `getPrismaClient` calls, one (environment, loads) pair per call. */
  function GateRun(g: GateState, calls: seq<(Env, bool)>): GateState
    decreases |calls|
  {
    if calls == [] then g else GateRun(GateStep(g, calls[0].0, calls[0].1), calls[1..])
  }

  /** Over any run of calls the globals stay consistent, so the client is built at most
      once and the warning printed at most once; a process once unavailable stays
      unavailable with nothing else changing, and a held client is kept. */
  lemma {:induction false} GateRunKeeps(g: GateState, calls: seq<(Env, bool)>)
    requires GateValid(g)
    ensures var h := GateRun(g, calls);
      && GateValid(h) && h.constructions <= 1 && h.warnings <= 1
      && (g.unavailable ==> h == g)
      && (g.client ==> h == g)
      && (g.warned ==> h.warned)
    decreases |calls|
  {
    if calls != [] {
      GateRunKeeps(GateStep(g, calls[0].0, calls[0].1), calls[1..]);
    }
  }

  /** Once any call in a run marks the backend unavailable, no later call returns a client. */
  lemma {:induction false} UnavailableIsSticky(g: GateState, calls: seq<(Env, bool)>, k: nat)
    requires GateValid(g) && k <= |calls|
    requires GateRun(g, calls[..k]).unavailable
    ensures GateRun(g, calls) == GateRun(g, calls[..k])
    decreases k
  {
    if k == 0 {
      assert calls[..k] == [];
      GateRunKeeps(g, calls);
    } else {
      assert calls[..k][1..] == calls[1..][..k - 1];
      GateStepKeeps(g, calls[0].0, calls[0].1);
      UnavailableIsSticky(GateStep(g, calls[0].0, calls[0].1), calls[1..], k - 1);
    }
  }

  /** One call keeps the globals consistent. */
  lemma GateStepKeeps(g: GateState, env: Env, loads: bool)
    requires GateValid(g)
    ensures GateValid(GateStep(g, env, loads))
  {
  }

  /** The three process-wide globals of lib/prisma.ts. `constructions` and `warnings`
      count the client constructions and the "Prisma unavailable" warnings so far. */
  class ClientGate {
    /** `__rims_prisma__` is set. */
    var client: bool
    /** `__rims_prisma_unavailable__`. */
    var unavailable: bool
    /** `__rims_prisma_warned__`. */
    var warned: bool
    ghost var constructions: nat
    ghost var warnings: nat

    /** The globals as a value. */
    ghost function State(): GateState
      reads this
    {
      GateState(client, unavailable, warned, constructions, warnings)
    }

    /** See `GateValid`. */
    ghost predicate Valid()
      reads this
    {
      GateValid(State())
    }

    /** A fresh process: no client, not unavailable, not warned. */
    constructor ()
      ensures Valid()
      ensures !client && !unavailable && !warned && constructions == 0 && warnings == 0
    {
      client, unavailable, warned := false, false, false;
      constructions, warnings := 0, 0;
    }

    /** `getPrismaClient`: `r` is whether a client is returned (`null` otherwise).
        `loads` says whether importing and constructing the client would succeed. */
    method GetPrismaClient(env: Env, loads: bool) returns (r: bool)
      requires Valid()
      modifies this
      ensures Valid()
      ensures State() == GateStep(old(State()), env, loads)
      ensures r <==> IsPrismaEnabledByEnv(env) && !old(unavailable) && (old(client) || loads)
      ensures r ==> client
      ensures !IsPrismaEnabledByEnv(env) || old(unavailable) ==>
        && client == old(client) && unavailable == old(unavailable) && warned == old(warned)
        && constructions == old(constructions) && warnings == old(warnings)
      ensures old(client) ==> client && unavailable == old(unavailable) && warned == old(warned)
                              && constructions == old(constructions) && warnings == old(warnings)
      ensures old(unavailable) ==> unavailable
      ensures constructions <= 1 && warnings <= 1
      ensures IsPrismaEnabledByEnv(env) && !old(unavailable) && !old(client) ==>
        && client == loads && unavailable == !loads
        && warned == (old(warned) || (!loads && !env.production))
        && warnings == old(warnings) + (if !loads && !env.production && !old(warned) then 1 else 0)
    {
      if !IsPrismaEnabledByEnv(env) {
        return false;
      }
      if unavailable {
        return false;
      }
      if !client {
        if loads {
          client := true;
          constructions := constructions + 1;
        } else {
          unavailable := true;
          if !env.production && !warned {
            warned := true;
            warnings := warnings + 1;
          }
          return false;
        }
      }
      r := client;
    }
  }
}
