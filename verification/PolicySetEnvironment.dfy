// What policy sets may name: the target's own lists, and what earlier families of
// the same run were cleared to bring. A second run after a TrustSec import counts on
// no group the first had not counted on.
module PolicySetEnvironment {
  import opened Objects
  import opened Conditions
  import opened PolicySets
  import opened PolicySetTheorems
  import opened PolicySetRetry
  import Store = TrustSecStore
  import TrustSec
  import TrustSecTheorems
  import TrustSecVerdicts

  // The names a target lists, beside its security groups. `policyGroups` is the
  // policy API's own list of those. The conditions are those of all three kinds.
  datatype Lists = Lists(
    services: set<string>, policyGroups: set<string>, stores: set<string>, profiles: set<string>,
    conditions: set<string>, dictionaries: set<string>, attributes: map<string, set<string>>)

  // The names the other families of this run were cleared to create.
  datatype Arriving = Arriving(
    joinPoints: set<string>, identitySources: set<string>, sequences: set<string>,
    profiles: set<string>, conditions: set<string>)

  const BUILT_IN := {"Internal Users", "Guest Users", "All_AD_Join_Points", "Internal Endpoints"}

  // The groups are the target's and those the TrustSec pre-flight of this run
  // clears.
  function EnvOf(st: Store.Store, items: seq<Object>, l: Lists, a: Arriving): Env {
    Env(l.services, l.policyGroups + TrustSec.WillExistSgts(st, items),
        BUILT_IN + l.stores + a.joinPoints + a.identitySources + a.sequences,
        (l.profiles - {""}) + a.profiles, l.conditions + a.conditions, l.dictionaries, l.attributes)
  }

  // A rule may name a group that the policy API lists, that the target's own list has,
  // or that the TrustSec report of this run clears for creation, and no other; a store
  // that is built in, listed, or about to be there; a profile and a condition that are
  // listed or about to be; a service and a dictionary that are listed.
  lemma CountedOn(st: Store.Store, items: seq<Object>, l: Lists, a: Arriving, n: string)
    ensures var env := EnvOf(st, items, l, a);
            && (n in env.groups <==>
                  || n in l.policyGroups
                  || TrustSecVerdicts.Expected(st.sgts, TrustSec.Preflight(st, items), "sgt", n))
            && (n in env.stores <==>
                  || n in ["Internal Users", "Guest Users", "All_AD_Join_Points", "Internal Endpoints"]
                  || n in l.stores || n in a.joinPoints || n in a.identitySources || n in a.sequences)
            && (n in env.profiles <==> (n in l.profiles && n != "") || n in a.profiles)
            && (n in env.conditions <==> n in l.conditions || n in a.conditions)
            && (n in env.services <==> n in l.services)
            && (n in env.dictionaries <==> n in l.dictionaries) && env.attributes == l.attributes
  {
    TrustSecVerdicts.ExpectedGroups(st, items);
    hide TrustSec.WillExistSgts, TrustSec.Preflight, TrustSecVerdicts.Expected;
  }

  // The later lists hold, beyond what the earlier ones held, only what the earlier
  // run was cleared to create, and no more is cleared by now. Of groups it is only
  // said that the policy API lists none the target does not hold.
  ghost predicate OnlyGained(l: Lists, a: Arriving, after: Store.Store, later: Lists, arriving: Arriving) {
    && later.services <= l.services && later.dictionaries <= l.dictionaries && later.attributes == l.attributes
    && later.policyGroups <= l.policyGroups + Store.NamesIn(after.sgts)
    && later.stores <= BUILT_IN + l.stores + a.joinPoints + a.identitySources + a.sequences
    && arriving.joinPoints <= a.joinPoints && arriving.identitySources <= a.identitySources
    && arriving.sequences <= a.sequences
    && later.profiles <= l.profiles + a.profiles && arriving.profiles <= a.profiles
    && later.conditions <= l.conditions + a.conditions && arriving.conditions <= a.conditions
  }

  // The target's TrustSec collections after an import, whatever it refused.
  ghost function After(st: Store.Store, asked: nat, answers: nat -> Store.Answer, readable: bool, items: seq<Object>)
    : Store.Store
  {
    TrustSec.Apply(TrustSec.Start(st, asked), answers, readable, TrustSec.Preflight(st, items)).store
  }

  // Then a second run counts on nothing the first had not counted on: for the
  // groups because that is what a TrustSec import leaves behind.
  lemma SecondRunCountsOnNoMore(st: Store.Store, asked: nat, answers: nat -> Store.Answer, readable: bool,
                                items: seq<Object>, l: Lists, a: Arriving, later: Lists, arriving: Arriving)
    requires Store.Valid(st) && OnlyGained(l, a, After(st, asked, answers, readable, items), later, arriving)
    ensures Within(EnvOf(After(st, asked, answers, readable, items), items, later, arriving), EnvOf(st, items, l, a))
  {
    var after := After(st, asked, answers, readable, items);
    TrustSecTheorems.RunIsRanFrom(st, asked, answers, readable, items);
    hide After, TrustSecTheorems.RanFrom;
    TrustSecTheorems.WillExistSgtsShrinks(st, after, items);
    assert Store.NamesIn(after.sgts) <= TrustSec.WillExistSgts(after, items);
    hide Store.NamesIn, TrustSec.WillExistSgts;
  }

  // Two families, two runs: after a TrustSec import under any refusals and a policy
  // set import under any refusals, a re-run of the policy sets only retries what
  // did not land.
  lemma RerunAcrossFamilies(st: Store.Store, asked: nat, answers: nat -> Store.Answer, readable: bool,
                            items: seq<Object>, c: Pass, d: Pass, l: Lists, a: Arriving, later: Lists,
                            arriving: Arriving)
    requires Store.Valid(st) && OnlyGained(l, a, After(st, asked, answers, readable, items), later, arriving)
    requires Sound(c) && d.sets == Final(c).sets && d.bundle == c.bundle && ListsRules(d.world)
    requires c.env == EnvOf(st, items, l, a)
    requires d.env == EnvOf(After(st, asked, answers, readable, items), items, later, arriving)
    ensures forall p :: p in Final(d).log ==> Retries(Final(c).log, p)
  {
    hide Sound, Final, Retries, OnlyGained, EnvOf, Within, After, Store.Valid;
    SecondRunCountsOnNoMore(st, asked, answers, readable, items, l, a, later, arriving);
    RerunRetriesOnlyWhatDidNotLand(c, d);
  }
}
