// What a run sends of each set, in which order, with which answers, and what it
// counts; and where everything the target gained came from.
module PolicySetRequests {
  import opened Objects
  import opened Report
  import opened Conditions
  import opened PolicySets
  import opened PolicySetNames
  import opened PolicySetRuns
  import opened PolicySetTheorems
  import opened PolicySetRetry
  import opened PolicySetArrivals
  import opened PolicySetContent
  import opened PolicySetVerdicts

  // --- counting ---------------------------------------------------------------------------

  // What one request adds to a counter. A refused rule is counted as failed twice.
  function CreatedBy(p: Post): nat { if p.reply == Landed && (p.SetPost? ==> p.read) then 1 else 0 }

  function SkippedBy(p: Post): nat { if p.reply == AlreadyThere then 1 else 0 }

  function FailedBy(p: Post): nat {
    match p.reply
    case Landed => if p.SetPost? && !p.read then 1 else 0
    case AlreadyThere => 0
    case Refused => if p.SetPost? then 1 else 2
  }

  function Sum(log: seq<Post>, f: Post -> nat): nat {
    if log == [] then 0 else Sum(log[..|log| - 1], f) + f(log[|log| - 1])
  }

  lemma {:induction false} SumAppend(a: seq<Post>, b: seq<Post>, f: Post -> nat)
    ensures Sum(a + b, f) == Sum(a, f) + Sum(b, f)
  {
    if b == [] {
      assert a + b == a;
    } else {
      var n := |b| - 1;
      SumAppend(a, b[..n], f);
      assert (a + b)[..|a + b| - 1] == a + b[..n];
    }
  }

  // The rules of a list that a set was known to have.
  function KnownOf(rs: seq<Rule>, have: set<string>): nat {
    if rs == [] then 0 else KnownOf(rs[..|rs| - 1], have) + if rs[|rs| - 1].name in have then 1 else 0
  }

  // t is s with this stretch of requests sent, and that many things left alone.
  ghost predicate Counted(s: Run, t: Run, seg: seq<Post>, alone: nat) {
    && t.log == s.log + seg && t.asked == s.asked + |seg|
    && t.tally == Tally(s.tally.created + Sum(seg, CreatedBy), s.tally.skipped + Sum(seg, SkippedBy) + alone,
                        s.tally.blocked, s.tally.failed + Sum(seg, FailedBy))
  }

  lemma CountedTwice(s: Run, t: Run, u: Run, a: seq<Post>, b: seq<Post>, m: nat, n: nat)
    requires Counted(s, t, a, m) && Counted(t, u, b, n)
    ensures Counted(s, u, a + b, m + n)
  {
    hide Sum;
    SumAppend(a, b, CreatedBy);
    SumAppend(a, b, SkippedBy);
    SumAppend(a, b, FailedBy);
  }

  lemma SumOne(p: Post, f: Post -> nat)
    ensures Sum([p], f) == f(p)
  {
    assert [p][..0] == [];
  }

  // --- the rules sent to one set ------------------------------------------------------------

  // The answer to a request, as it is read.
  ghost predicate Replies(a: Answer, r: Reply) {
    && (r == Landed <==> a.Accept?) && (r == AlreadyThere <==> a.Duplicate?) && (r == Refused <==> a.Refuse?)
  }

  // The requests are those for these places of the list, in that order, each with
  // the next answer.
  ghost predicate RequestsFor(seg: seq<Post>, at: seq<nat>, rs: seq<Rule>, from: nat, id: string, k: RuleKind,
                              asked: nat, w: World) {
    && |seg| == |at|
    && forall x :: 0 <= x < |seg| ==>
         && at[x] < |rs|
         && seg[x].RulePost? && seg[x].from == from && seg[x].id == id && seg[x].kind == k
         && seg[x].rule == rs[at[x]] && Replies(w.answers(asked + x), seg[x].reply)
  }

  // In order, the places of the rules to send: no default one, and none of a name
  // that is there.
  ghost predicate ToSend(at: seq<nat>, rs: seq<Rule>, have: set<string>) {
    && (forall x, y :: 0 <= x < y < |at| ==> at[x] < at[y])
    && (forall j: nat :: j in at <==> j < |rs| && !rs[j].isDefault && rs[j].name !in have)
  }

  lemma OneSent(s: Run, w: World, from: nat, id: string, k: RuleKind, r: Rule, have: set<string>)
    returns (seg: seq<Post>)
    ensures var t := StepRule(s, w, from, id, k, r, have);
            Counted(s, t, seg, if r.name in have then 1 else 0)
    ensures if r.isDefault || r.name in have then seg == []
            else
              && |seg| == 1 && seg[0].RulePost? && seg[0].from == from && seg[0].id == id && seg[0].kind == k
              && seg[0].rule == r && Replies(w.answers(s.asked), seg[0].reply)
  {
    hide AddRule, PostedRule;
    if r.name in have || r.isDefault {
      seg := [];
      assert s.log + [] == s.log;
    } else {
      var p := RulePost(from, id, k, r, RuleReply(w.answers(s.asked)));
      seg := [p];
      SumOne(p, CreatedBy);
      SumOne(p, SkippedBy);
      SumOne(p, FailedBy);
    }
  }

  lemma PlacesNext(at: seq<nat>, rs: seq<Rule>, have: set<string>) returns (more: seq<nat>)
    requires rs != [] && ToSend(at, rs[..|rs| - 1], have)
    ensures var n := |rs| - 1;
            more == at + (if rs[n].isDefault || rs[n].name in have then [] else [n])
    ensures ToSend(more, rs, have)
  {
    var n := |rs| - 1;
    more := at + if rs[n].isDefault || rs[n].name in have then [] else [n];
    assert forall j: nat :: j < n ==> rs[..n][j] == rs[j];
    assert forall x :: 0 <= x < |at| ==> at[x] in at;
    if |more| > |at| {
      assert more[|at|] == n;
      forall j: nat
        ensures j in more <==> j < |rs| && !rs[j].isDefault && rs[j].name !in have
      {
        assert j in more <==> j in at || j == n;
      }
    }
  }

  lemma RequestsNext(a: seq<Post>, at: seq<nat>, rs: seq<Rule>, from: nat, id: string, k: RuleKind, asked: nat,
                     w: World, one: seq<Post>, last: seq<nat>)
    requires rs != [] && RequestsFor(a, at, rs[..|rs| - 1], from, id, k, asked, w)
    requires RequestsFor(one, last, rs, from, id, k, asked + |a|, w)
    ensures RequestsFor(a + one, at + last, rs, from, id, k, asked, w)
  {
    hide Replies;
    var seg, places := a + one, at + last;
    forall x | 0 <= x < |seg|
      ensures places[x] < |rs|
      ensures seg[x].RulePost? && seg[x].from == from && seg[x].id == id && seg[x].kind == k
      ensures seg[x].rule == rs[places[x]] && Replies(w.answers(asked + x), seg[x].reply)
    {
      if x >= |a| {
        assert seg[x] == one[x - |a|] && places[x] == last[x - |a|];
        assert asked + |a| + (x - |a|) == asked + x;
      } else {
        assert seg[x] == a[x] && places[x] == at[x];
      }
    }
  }

  // One list of rules: exactly which are sent, and in the bundle's order.
  lemma {:induction false} ListSent(s: Run, w: World, from: nat, id: string, k: RuleKind, rs: seq<Rule>,
                                    have: set<string>) returns (seg: seq<Post>, at: seq<nat>)
    ensures Counted(s, SendRules(s, w, from, id, k, rs, have), seg, KnownOf(rs, have))
    ensures RequestsFor(seg, at, rs, from, id, k, s.asked, w) && ToSend(at, rs, have)
  {
    hide StepRule, Sum, ToSend, Replies;
    if rs == [] {
      seg, at := [], [];
      assert s.log + [] == s.log;
      NothingToSend(have);
      NothingSummed();
    } else {
      var n := |rs| - 1;
      var t := SendRules(s, w, from, id, k, rs[..n], have);
      var seg0, at0 := ListSent(s, w, from, id, k, rs[..n], have);
      var one := OneSent(t, w, from, id, k, rs[n], have);
      CountedTwice(s, t, StepRule(t, w, from, id, k, rs[n], have), seg0, one, KnownOf(rs[..n], have),
                   if rs[n].name in have then 1 else 0);
      at := PlacesNext(at0, rs, have);
      var last: seq<nat> := if rs[n].isDefault || rs[n].name in have then [] else [n];
      assert RequestsFor(one, last, rs, from, id, k, s.asked + |seg0|, w);
      hide Counted, RequestsFor;
      RequestsNext(seg0, at0, rs, from, id, k, s.asked, w, one, last);
      seg := seg0 + one;
    }
  }

  lemma NothingToSend(have: set<string>)
    ensures ToSend([], [], have)
  {
  }

  lemma NothingSummed()
    ensures forall f :: Sum([], f) == 0
  {
  }

  // --- one entry of the report ----------------------------------------------------------------

  // Both lists of a set into the target's set of this id: authentication first.
  ghost predicate SetFilled(seg: seq<Post>, from: nat, id: string, obj: Set, haveN: set<string>, haveZ: set<string>,
                            asked: nat, w: World, n: seq<nat>, z: seq<nat>) {
    && ToSend(n, obj.authn, haveN) && ToSend(z, obj.authz, haveZ)
    && |n| <= |seg|
    && RequestsFor(seg[..|n|], n, obj.authn, from, id, Authentication, asked, w)
    && RequestsFor(seg[|n|..], z, obj.authz, from, id, Authorization, asked + |n|, w)
  }

  lemma FillSent(s: Run, w: World, from: nat, id: string, obj: Set, haveN: set<string>, haveZ: set<string>)
    returns (seg: seq<Post>, n: seq<nat>, z: seq<nat>)
    ensures Counted(s, Fill(s, w, from, id, obj, haveN, haveZ), seg,
                    KnownOf(obj.authn, haveN) + KnownOf(obj.authz, haveZ))
    ensures SetFilled(seg, from, id, obj, haveN, haveZ, s.asked, w, n, z)
  {
    hide SendRules, Sum, KnownOf, ToSend, Replies;
    var t := SendRules(s, w, from, id, Authentication, obj.authn, haveN);
    var a, b;
    a, n := ListSent(s, w, from, id, Authentication, obj.authn, haveN);
    b, z := ListSent(t, w, from, id, Authorization, obj.authz, haveZ);
    CountedTwice(s, t, SendRules(t, w, from, id, Authorization, obj.authz, haveZ), a, b, KnownOf(obj.authn, haveN),
                 KnownOf(obj.authz, haveZ));
    seg := a + b;
    assert seg[..|n|] == a && seg[|n|..] == b;
  }

  // The answer to a set's request. An id that is in use is not one a deployment gives.
  ghost predicate SetReplies(sets: seq<Held>, a: Answer, p: Post)
    requires p.SetPost?
  {
    && (p.reply == Landed <==> a.Accept? && a.id != "" && forall h :: h in sets ==> h.id != a.id)
    && (p.reply == Landed ==> p.id == a.id)
    && (p.reply == AlreadyThere <==> a.Duplicate?)
  }

  // A set created: its own request, and, once it landed and was read back, every
  // rule of it that is no default.
  ghost predicate Makes(seg: seq<Post>, s: Run, e: Entry, w: World, n: seq<nat>, z: seq<nat>) {
    && seg != [] && seg[0].SetPost? && seg[0].from == e.from && seg[0].name == Target(e)
    && SetReplies(s.sets, w.answers(s.asked), seg[0]) && seg[0].read == w.relists(s.asked)
    && if seg[0].reply == Landed && seg[0].read then
         SetFilled(seg[1..], e.from, seg[0].id, e.obj, {}, {}, s.asked + 1, w, n, z)
       else |seg| == 1
  }

  lemma NoneKnown(rs: seq<Rule>)
    ensures KnownOf(rs, {}) == 0
  {
  }

  lemma MakesOne(s: Run, w: World, e: Entry) returns (seg: seq<Post>, n: seq<nat>, z: seq<nat>)
    requires Creates(e) && Target(e) !in NamesOf(s.sets)
    ensures Counted(s, CreateSet(s, w, e), seg, 0) && Makes(seg, s, e, w, n, z)
  {
    hide Fill, NewSet, FirstNamed, NamesOf, SetFilled, KnownOf, Sum;
    var name := Target(e);
    var a := w.answers(s.asked);
    var reply := SetReply(s.sets, a);
    var p := SetPost(e.from, name, if reply == Landed then a.id else "", reply, w.relists(s.asked));
    SumOne(p, CreatedBy);
    SumOne(p, SkippedBy);
    SumOne(p, FailedBy);
    n, z := [], [];
    seg := [p];
    if reply == Landed {
      var h := NewSet(e.obj, name, a.id, w);
      NewSetFields(e.obj, name, a.id, w);
      FirstNamedNew(s.sets, h);
      if p.read {
        var u := Run(s.sets + [h], s.asked + 1, s.log + [p], s.tally.(created := s.tally.created + 1));
        var rest;
        rest, n, z := FillSent(u, w, e.from, a.id, e.obj, {}, {});
        NoneKnown(e.obj.authn);
        NoneKnown(e.obj.authz);
        CountedTwice(s, u, CreateSet(s, w, e), [p], rest, 0, 0);
        seg := [p] + rest;
        assert seg[1..] == rest;
      }
    }
  }

  // The rules of the set that are known to be there when it is merged into.
  function LeftAlone(s: Run, w: World, e: Entry): nat {
    if e.action == Create && e.mergeId != "" then
      KnownOf(e.obj.authn, Listed(s, w, e.mergeId, Authentication))
      + KnownOf(e.obj.authz, Listed(s, w, e.mergeId, Authorization))
    else if e.action == Skip && e.obj.isDefault then
      KnownOf(e.obj.authn, Listed(s, w, e.defaultId, Authentication))
      + KnownOf(e.obj.authz, Listed(s, w, e.defaultId, Authorization))
    else 0
  }

  // One entry: what it sends, with which answers, and what it counts.
  ghost predicate Carried(s: Run, t: Run, e: Entry, w: World, seg: seq<Post>, n: seq<nat>, z: seq<nat>) {
    && Counted(s.(tally := s.tally.(skipped := s.tally.skipped + (if e.action == Skip then 1 else 0),
                                    blocked := s.tally.blocked + (if e.action == Blocked then 1 else 0))),
               t, seg, LeftAlone(s, w, e))
    && (Creates(e) ==> Makes(seg, s, e, w, n, z))
    && (forall id :: Merges(e, id) ==>
          SetFilled(seg, e.from, id, e.obj, Listed(s, w, id, Authentication), Listed(s, w, id, Authorization),
                    s.asked, w, n, z))
    && (!Creates(e) && (forall id :: !Merges(e, id)) ==> seg == [])
  }

  ghost predicate HasDefault(e: Entry) { e.action == Skip && e.obj.isDefault ==> e.defaultId != "" }

  lemma MergeCarried(s: Run, w: World, e: Entry, id: string) returns (seg: seq<Post>, n: seq<nat>, z: seq<nat>)
    requires Merges(e, id)
    ensures Counted(s, Merge(s, w, e, id), seg, LeftAlone(s, w, e))
    ensures SetFilled(seg, e.from, id, e.obj, Listed(s, w, id, Authentication), Listed(s, w, id, Authorization),
                      s.asked, w, n, z)
  {
    hide Fill, KnownOf, SetFilled, Counted, Listed;
    seg, n, z := FillSent(s, w, e.from, id, e.obj, Listed(s, w, id, Authentication), Listed(s, w, id, Authorization));
  }

  lemma OneMerge(e: Entry, id: string)
    requires Merges(e, id)
    ensures forall x :: Merges(e, x) ==> x == id
  {
  }

  lemma StepCarried(s: Run, w: World, e: Entry) returns (seg: seq<Post>, n: seq<nat>, z: seq<nat>)
    requires Ready(s, e) && HasDefault(e)
    ensures Carried(s, Step(s, w, e), e, w, seg, n, z)
  {
    hide Merge, CreateSet, NamesAt, Makes, SetFilled, KnownOf, Ids, NamesOf, Target, Sum, Listed;
    if Creates(e) {
      seg, n, z := MakesOne(s, w, e);
    } else if e.action == Create {
      OneMerge(e, e.mergeId);
      seg, n, z := MergeCarried(s, w, e, e.mergeId);
    } else if e.action == Skip && e.obj.isDefault {
      OneMerge(e, e.defaultId);
      var t := s.(tally := s.tally.(skipped := s.tally.skipped + 1));
      ListedAside(s, t, w);
      seg, n, z := MergeCarried(t, w, e, e.defaultId);
    } else {
      seg, n, z := [], [], [];
      NothingSummed();
      assert s.log + [] == s.log;
    }
  }

  lemma ListedAside(s: Run, t: Run, w: World)
    requires t.sets == s.sets && t.asked == s.asked
    ensures forall id, k :: Listed(t, w, id, k) == Listed(s, w, id, k)
  {
  }

  lemma DefaultHasId(c: Pass, k: nat)
    requires Sound(c) && k < |ReportOf(c)|
    ensures HasDefault(ReportOf(c)[k])
  {
    hide Preflight, Entries, SetsByName, Mine, KeptSet, CheckSet, UniqueIds, UniqueNames, NamesOf, Importable;
    var e := ReportOf(c)[k];
    ReportEntries(c.sets, c.bundle, c.env);
    assert EntryOf(c.sets, c.bundle, c.env, e);
    var s := c.bundle[e.from];
    SetsByNameKeys(c.sets);
    IdNonempty(c.sets, DEFAULT);
    DefaultEntry(c.sets, e.from, s, c.env, e);
  }

  lemma DefaultEntry(sets: seq<Held>, i: nat, s: Set, env: Env, e: Entry)
    requires e in Entries(sets, i, s, env) && DEFAULT in SetsByName(sets)
    ensures e.obj.isDefault ==> e.defaultId == SetsByName(sets)[DEFAULT].id
  {
    hide SetsByName, Mine, PolicySets.Kept, CheckSet, FreeName, MissingAt;
  }

  // Over a whole run: what every entry sends.
  lemma EntrySends(c: Pass, k: nat) returns (seg: seq<Post>, n: seq<nat>, z: seq<nat>)
    requires Sound(c) && k < |ReportOf(c)|
    ensures Carried(At(c, k), At(c, k + 1), ReportOf(c)[k], c.world, seg, n, z)
  {
    hide Preflight, At, Step, Ready, Carried, HasDefault, Done, Holds;
    Reached(c, k);
    DefaultHasId(c, k);
    NextState(c, k);
    seg, n, z := StepCarried(At(c, k), c.world, ReportOf(c)[k]);
  }

  lemma FilledIsRules(seg: seq<Post>, from: nat, id: string, obj: Set, haveN: set<string>, haveZ: set<string>,
                      asked: nat, w: World, n: seq<nat>, z: seq<nat>)
    requires SetFilled(seg, from, id, obj, haveN, haveZ, asked, w, n, z)
    ensures forall p :: p in seg ==> p.RulePost?
  {
    hide ToSend, Replies;
    assert seg == seg[..|n|] + seg[|n|..];
  }

  lemma SetPostIsFirst(s: Run, t: Run, e: Entry, w: World, seg: seq<Post>, n: seq<nat>, z: seq<nat>, p: Post)
    requires Carried(s, t, e, w, seg, n, z) && p in seg && p.SetPost?
    ensures Creates(e) && seg != [] && p == seg[0] && p.from == e.from && p.name == Target(e)
  {
    hide Counted, SetFilled, SetReplies, Target, Listed;
    if Creates(e) {
      if seg[0].reply == Landed && seg[0].read {
        FilledIsRules(seg[1..], e.from, seg[0].id, e.obj, {}, {}, s.asked + 1, w, n, z);
      }
      assert seg == [seg[0]] + seg[1..];
    } else if id :| Merges(e, id) {
      FilledIsRules(seg, e.from, id, e.obj, Listed(s, w, id, Authentication), Listed(s, w, id, Authorization), s.asked,
                    w, n, z);
    }
  }

  // Over a whole run: a set is sent under a name if and only if it has a name of its
  // own, is not the Default set, resolves whole, and that is the name to give it.
  lemma SetIsSentExactly(c: Pass, i: nat, name: string)
    requires Sound(c) && i < |c.bundle|
    ensures (exists p :: p in Final(c).log && p.SetPost? && p.from == i && p.name == name) <==>
            var s := c.bundle[i];
            s.name != "" && !s.isDefault && SetResolves(s, c.env) && GoesUnder(c.sets, s, name)
  {
    hide Preflight, At, Creates, Target, Entries, Carried, SetResolves, GoesUnder, Importable, UniqueIds, UniqueNames;
    var s := c.bundle[i];
    CreatedExactly(c.sets, i, s, c.env, name);
    if p :| p in Final(c).log && p.SetPost? && p.from == i && p.name == name {
      var k := PostOfEntry(c, |ReportOf(c)|, p);
      var seg, n, z := EntrySends(c, k);
      PartIsSeg(c, k, seg, n, z);
      var e := ReportOf(c)[k];
      SetPostIsFirst(At(c, k), At(c, k + 1), e, c.world, seg, n, z, p);
      ReportEntries(c.sets, c.bundle, c.env);
      assert EntryOf(c.sets, c.bundle, c.env, e);
      EntriesFrom(c.sets, i, s, c.env);
      CreatedName(c.sets, i, s, c.env);
      assert e in Entries(c.sets, i, s, c.env) && Creates(e) && Target(e) == name && e.from == i && e.obj == s;
    }
    if e :| e in Entries(c.sets, i, s, c.env) && Creates(e) && Target(e) == name && e.from == i && e.obj == s {
      var k := EntryPlace(c, i, e);
      var seg, n, z := EntrySends(c, k);
      PartIsSeg(c, k, seg, n, z);
      FirstIsSet(At(c, k), At(c, k + 1), e, c.world, seg, n, z);
      InPart(c, k, seg[0]);
    }
  }

  lemma FirstIsSet(s: Run, t: Run, e: Entry, w: World, seg: seq<Post>, n: seq<nat>, z: seq<nat>)
    requires Carried(s, t, e, w, seg, n, z) && Creates(e)
    ensures seg != [] && seg[0].SetPost? && seg[0].from == e.from && seg[0].name == Target(e)
  {
    hide Counted, SetFilled, SetReplies, Target, Listed;
  }

  lemma PartIsSeg(c: Pass, k: nat, seg: seq<Post>, n: seq<nat>, z: seq<nat>)
    requires k < |ReportOf(c)| && Carried(At(c, k), At(c, k + 1), ReportOf(c)[k], c.world, seg, n, z)
    ensures |At(c, k).log| <= |At(c, k + 1).log| && Part(c, k) == seg
  {
    hide Preflight, At, Sum, SetFilled, Makes, Merges, Listed, LeftAlone;
  }

  // --- the counters of a whole run ------------------------------------------------------------

  function HowMany(report: seq<Entry>, a: Action): nat {
    if report == [] then 0
    else HowMany(report[..|report| - 1], a) + if report[|report| - 1].action == a then 1 else 0
  }

  ghost function LeftAloneBy(c: Pass, k: nat): nat
    requires k <= |ReportOf(c)|
  {
    if k == 0 then 0 else LeftAloneBy(c, k - 1) + LeftAlone(At(c, k - 1), c.world, ReportOf(c)[k - 1])
  }

  // Each counter is exactly what happened: the sets that landed and were read back
  // and the rules that landed; the entries skipped, the duplicates, and the rules
  // left alone; the entries blocked; and the refusals, a rule's twice.
  lemma {:induction false} RunIsCounted(c: Pass, k: nat)
    requires Sound(c) && k <= |ReportOf(c)|
    ensures var s := At(c, k);
            && s.asked == c.asked + |s.log|
            && s.tally == Tally(Sum(s.log, CreatedBy),
                                HowMany(ReportOf(c)[..k], Skip) + Sum(s.log, SkippedBy) + LeftAloneBy(c, k),
                                HowMany(ReportOf(c)[..k], Blocked), Sum(s.log, FailedBy))
  {
    hide Preflight, At, Sum, LeftAlone;
    if k == 0 {
      StartOf(c);
      NothingSummed();
    } else {
      RunIsCounted(c, k - 1);
      var seg, n, z := EntrySends(c, k - 1);
      SumAppend(At(c, k - 1).log, seg, CreatedBy);
      SumAppend(At(c, k - 1).log, seg, SkippedBy);
      SumAppend(At(c, k - 1).log, seg, FailedBy);
      assert ReportOf(c)[..k][..k - 1] == ReportOf(c)[..k - 1];
    }
  }

  // --- where what the target gained came from ---------------------------------------------------

  // A rule of the target was there, or is one the target gives a new set, or came
  // with a request into its set.
  ghost predicate RuleFrom(r: Rule, id: string, k: RuleKind, before: seq<Held>, log: seq<Post>, w: World) {
    || (exists h :: h in before && h.id == id && r in Rules(h, k))
    || r in (if k == Authentication then w.factoryAuthn else w.factoryAuthz)
    || exists p :: p in log && p.RulePost? && p.reply == Landed && p.id == id && p.kind == k
                   && ArrivedRule(r, p.rule, w)
  }

  ghost predicate AllFrom(sets: seq<Held>, before: seq<Held>, log: seq<Post>, w: World) {
    forall h, k, r :: h in sets && r in Rules(h, k) ==> RuleFrom(r, h.id, k, before, log, w)
  }

  lemma FromLater(r: Rule, id: string, k: RuleKind, before: seq<Held>, log: seq<Post>, p: Post, w: World)
    requires RuleFrom(r, id, k, before, log, w)
    ensures RuleFrom(r, id, k, before, log + [p], w)
  {
    hide ArrivedRule;
    if q :| q in log && q.RulePost? && q.reply == Landed && q.id == id && q.kind == k && ArrivedRule(r, q.rule, w) {
      assert q in log + [p];
    }
  }

  lemma OneFrom(sets: seq<Held>, before: seq<Held>, log: seq<Post>, p: Post, bundle: seq<Set>, w: World)
    requires AllFrom(sets, before, log, w)
    ensures AllFrom(ReplayOne(sets, p, bundle, w), before, log + [p], w)
  {
    hide ArrivedRule, RuleFrom, PostedRule, NewSet;
    var t := ReplayOne(sets, p, bundle, w);
    forall h, k, r | h in t && r in Rules(h, k)
      ensures RuleFrom(r, h.id, k, before, log + [p], w)
    {
      var i :| 0 <= i < |t| && t[i] == h;
      if i < |sets| && r in Rules(sets[i], k) {
        assert sets[i] in sets;
        FromLater(r, h.id, k, before, log, p, w);
      } else {
        NewFrom(sets, i, h, k, r, before, log, p, bundle, w);
      }
    }
  }

  lemma NewFrom(sets: seq<Held>, i: nat, h: Held, k: RuleKind, r: Rule, before: seq<Held>, log: seq<Post>, p: Post,
                bundle: seq<Set>, w: World)
    requires i < |ReplayOne(sets, p, bundle, w)| && h == ReplayOne(sets, p, bundle, w)[i] && r in Rules(h, k)
    requires i < |sets| ==> r !in Rules(sets[i], k)
    ensures RuleFrom(r, h.id, k, before, log + [p], w)
  {
    hide ArrivedRule, PostedRule, NewSet;
    if p.SetPost? {
      SentSet(bundle[p.from], p.name, p.id, w);
    } else {
      SentRule(p.rule, w);
      assert p in log + [p];
    }
  }

  lemma {:induction false} ReplayFrom(before: seq<Held>, log: seq<Post>, bundle: seq<Set>, w: World)
    ensures AllFrom(Replay(before, log, bundle, w), before, log, w)
  {
    hide ReplayOne, ArrivedRule;
    if log != [] {
      hide AllFrom;
      var n := |log| - 1;
      ReplayFrom(before, log[..n], bundle, w);
      OneFrom(Replay(before, log[..n], bundle, w), before, log[..n], log[n], bundle, w);
      assert log[..n] + [log[n]] == log;
    }
  }

  // Over whole runs: no rule is on the target that was not there, is not one of its
  // own, and did not come with a request for that very set.
  lemma RuleProvenance(c: Pass, h: Held, k: RuleKind, r: Rule)
    requires Sound(c) && h in Final(c).sets && r in Rules(h, k)
    ensures RuleFrom(r, h.id, k, c.sets, Final(c).log, c.world)
  {
    hide Preflight, At, Replay, RuleFrom;
    LogAccountsForTarget(c, |ReportOf(c)|);
    ReplayFrom(c.sets, Final(c).log, c.bundle, c.world);
  }
}
