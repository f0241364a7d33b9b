/** The router's handling of a client's batch: which requests the cache already
    answers, how upstream answers find their requests again, and what is stored. */
module Router {
  import opened Options
  import opened Collections

  /** One request of the batch with its canonical cache key. */
  datatype Asked = Asked(id: string, key: string)

  /** One element of a batch reply: an object with its raw id, or JSON that does
      not decode to one. */
  datatype Answer = Answer(id: string, body: string) | Unreadable(text: string)

  datatype StoreWrite = StoreWrite(key: string, answer: Answer)

  predicate Space(c: char) {
    c in {' ', '\t', '\n', '\r'}
  }

  function TrimLeft(s: string): string {
    if s != "" && Space(s[0]) then TrimLeft(s[1..]) else s
  }

  function TrimRight(s: string): string {
    if s != "" && Space(s[|s| - 1]) then TrimRight(s[..|s| - 1]) else s
  }

  /** normalizeID */
  function NormalizeId(id: string): string {
    var s := TrimRight(TrimLeft(id));
    if s == "" then "null" else s
  }

  /* ---------- Which ids are the same ---------- */

  predicate AllBlank(s: string) {
    forall k :: 0 <= k < |s| ==> s[k] == ' ' || s[k] == '\t' || s[k] == '\n' || s[k] == '\r'
  }

  /** From i to j, s is core; there are blanks alone around it, and none at its ends. */
  predicate Core(s: string, i: nat, j: nat, core: string) {
    && i <= j <= |s| && s[i..j] == core && AllBlank(s[..i]) && AllBlank(s[j..])
    && (core != "" ==> !AllBlank(core[..1]) && !AllBlank(core[|core| - 1..]))
  }

  ghost predicate Around(s: string, core: string) {
    exists i: nat, j: nat :: Core(s, i, j, core)
  }

  /** The two raw ids are the same JSON up to blanks around it; none at all is read as null. */
  ghost predicate SameId(s: string, t: string) {
    exists a, b :: Around(s, a) && Around(t, b) && (a == b || (a in {"", "null"} && b in {"", "null"}))
  }

  lemma {:induction false} TrimmedLeft(s: string) returns (i: nat)
    ensures i <= |s| && TrimLeft(s) == s[i..] && AllBlank(s[..i])
    ensures i < |s| ==> !AllBlank(s[i..][..1])
  {
    i := 0;
    if s != "" && Space(s[0]) {
      i := TrimmedLeft(s[1..]);
      i := i + 1;
    }
  }

  lemma {:induction false} TrimmedRight(s: string) returns (j: nat)
    ensures j <= |s| && TrimRight(s) == s[..j] && AllBlank(s[j..])
    ensures j > 0 ==> !AllBlank(s[..j][j - 1..])
  {
    j := |s|;
    if s != "" && Space(s[|s| - 1]) {
      var init := s[..|s| - 1];
      j := TrimmedRight(init);
      BlankLonger(s, j);
      assert s[..j] == init[..j];
    } else if s != "" {
      assert s[..j] == s && s[j - 1..] == [s[j - 1]] && s[j..] == "";
      NotBlank(s[j - 1]);
    } else {
      assert s[j..] == "" && s[..j] == s;
    }
    hide AllBlank;
  }

  lemma NotBlank(c: char)
    requires !Space(c)
    ensures !AllBlank([c])
  {
    assert [c][0] == c;
  }

  lemma BlankLonger(s: string, j: nat)
    requires s != "" && Space(s[|s| - 1]) && j < |s| && AllBlank(s[..|s| - 1][j..])
    ensures AllBlank(s[j..])
  {
    assert s[j..] == s[..|s| - 1][j..] + [s[|s| - 1]];
  }

  lemma Trimmed(s: string)
    ensures Around(s, TrimRight(TrimLeft(s)))
  {
    var i := TrimmedLeft(s);
    var t := s[i..];
    var j := TrimmedRight(t);
    hide AllBlank;
    assert t[..j] == s[i..i + j] && t[j..] == s[i + j..];
    if j > 0 {
      assert t[..j][..1] == t[..1];
    }
    assert Core(s, i, i + j, t[..j]);
  }

  lemma CoreInside(s: string, i: nat, j: nat, a: string, k: nat, l: nat)
    requires Core(s, i, j, a) && a != "" && k <= l <= |s| && AllBlank(s[..k]) && AllBlank(s[l..])
    ensures k <= i && j <= l
  {
    assert a[..1] == [s[i]] && a[|a| - 1..] == [s[j - 1]];
    assert forall x :: 0 <= x < k ==> s[..k][x] == s[x];
    assert forall x :: l <= x < |s| ==> s[l..][x - l] == s[x];
  }

  lemma AroundOne(s: string, a: string, b: string)
    requires Around(s, a) && Around(s, b)
    ensures a == b
  {
    var i: nat, j: nat :| Core(s, i, j, a);
    var k: nat, l: nat :| Core(s, k, l, b);
    if a != "" {
      CoreInside(s, i, j, a, k, l);
    }
    if b != "" {
      CoreInside(s, k, l, b, i, j);
    }
    hide AllBlank;
  }

  /** What normalizeID tells apart. */
  lemma {:induction false} SameIdExactly(s: string, t: string)
    ensures NormalizeId(s) == NormalizeId(t) <==> SameId(s, t)
  {
    var a, b := TrimRight(TrimLeft(s)), TrimRight(TrimLeft(t));
    Trimmed(s);
    Trimmed(t);
    hide Around;
    if SameId(s, t) {
      var c, d :| Around(s, c) && Around(t, d) && (c == d || (c in {"", "null"} && d in {"", "null"}));
      AroundOne(s, a, c);
      AroundOne(t, b, d);
    }
  }

  /** No two requests have the same raw id. */
  ghost predicate DistinctRaw(reqs: seq<Asked>) {
    forall i, j :: 0 <= i < j < |reqs| ==> !SameId(reqs[i].id, reqs[j].id)
  }

  lemma NamesExactly(a: Answer, r: Asked)
    ensures Names(a, r) <==> a.Answer? && SameId(a.id, r.id)
  {
    hide NormalizeId;
    if a.Answer? {
      SameIdExactly(a.id, r.id);
    }
  }

  lemma DistinctExactly(reqs: seq<Asked>)
    ensures DistinctIds(reqs) <==> DistinctRaw(reqs)
  {
    hide NormalizeId, SameId;
    forall i, j | 0 <= i < j < |reqs|
      ensures NormalizeId(reqs[i].id) == NormalizeId(reqs[j].id) <==> SameId(reqs[i].id, reqs[j].id)
    {
      SameIdExactly(reqs[i].id, reqs[j].id);
    }
  }

  function NamedId(a: Answer): Option<string> {
    if a.Answer? then Some(NormalizeId(a.id)) else None
  }

  /** The answer carries the request's id. */
  predicate Names(a: Answer, r: Asked) {
    NamedId(a) == Some(NormalizeId(r.id))
  }

  predicate DistinctIds(reqs: seq<Asked>) {
    forall i, j :: 0 <= i < j < |reqs| ==> NormalizeId(reqs[i].id) != NormalizeId(reqs[j].id)
  }

  predicate DistinctAnswers(answers: seq<Answer>) {
    forall j, l :: 0 <= j < l < |answers| ==> NamedId(answers[j]) != NamedId(answers[l])
  }

  ghost predicate NamesSome(a: Answer, reqs: seq<Asked>) {
    exists i :: 0 <= i < |reqs| && Names(a, reqs[i])
  }

  /** Answers and requests can be matched one to one by id. */
  ghost predicate Matchable(answers: seq<Answer>, reqs: seq<Asked>) {
    && |answers| == |reqs|
    && DistinctIds(reqs)
    && (forall j :: 0 <= j < |answers| ==> NamesSome(answers[j], reqs))
    && DistinctAnswers(answers)
  }

  /** The same answers, each at the position of the request it names. */
  ghost predicate Aligned(ordered: seq<Answer>, answers: seq<Answer>, reqs: seq<Asked>) {
    && multiset(ordered) == multiset(answers)
    && |ordered| == |reqs|
    && forall i :: 0 <= i < |reqs| ==> Names(ordered[i], reqs[i])
  }

  /** What ordering a reply makes of it. */
  ghost predicate IsOrdered(ordered: seq<Answer>, answers: seq<Answer>, reqs: seq<Asked>) {
    if Matchable(answers, reqs) then Aligned(ordered, answers, reqs) else ordered == answers
  }

  /* ---------- Slots ---------- */

  /** The answers in the filled slots. */
  function Filled(slots: seq<Option<Answer>>): multiset<Answer> {
    if slots == [] then multiset{} else Filled(slots[..|slots| - 1]) + Held(slots[|slots| - 1])
  }

  function Held(slot: Option<Answer>): multiset<Answer> {
    if slot.Some? then multiset{slot.value} else multiset{}
  }

  lemma FilledLast(slots: seq<Option<Answer>>, init: seq<Option<Answer>>, last: Option<Answer>)
    requires slots == init + [last]
    ensures Filled(slots) == Filled(init) + Held(last)
  {
    assert slots[..|slots| - 1] == init;
  }

  lemma {:induction false} FillOne(slots: seq<Option<Answer>>, i: nat, a: Answer)
    requires i < |slots| && slots[i].None?
    ensures Filled(slots[i := Some(a)]) == Filled(slots) + multiset{a}
  {
    hide Filled, Held;
    var n := |slots| - 1;
    var init, last := slots[..n], slots[n];
    FilledLast(slots, init, last);
    if i == n {
      FilledLast(slots[i := Some(a)], init, Some(a));
      assert Held(last) == multiset{} && Held(Some(a)) == multiset{a} by { HeldOne(a); }
    } else {
      FillOne(init, i, a);
      FilledLast(slots[i := Some(a)], init[i := Some(a)], last);
      Shift(Filled(init), multiset{a}, Held(last));
    }
  }

  lemma HeldOne(a: Answer)
    ensures Held(None) == multiset{} && Held(Some(a)) == multiset{a}
  {
  }

  function NoAnswers(n: nat): (slots: seq<Option<Answer>>)
    ensures |slots| == n && forall i :: 0 <= i < n ==> slots[i].None?
  {
    seq(n, _ => None)
  }

  lemma {:induction false} EmptySlots(n: nat)
    ensures Filled(NoAnswers(n)) == multiset{}
  {
    if n > 0 {
      assert NoAnswers(n)[..n - 1] == NoAnswers(n - 1);
      EmptySlots(n - 1);
    }
  }

  /** As many answers as slots leave no slot empty. */
  lemma {:induction false} FullSlots(slots: seq<Option<Answer>>)
    ensures |Filled(slots)| <= |slots|
    ensures |Filled(slots)| == |slots| ==>
              && (forall i :: 0 <= i < |slots| ==> slots[i].Some?)
              && multiset(Values(slots)) == Filled(slots)
  {
    hide Filled, Held;
    if slots != [] {
      var n := |slots| - 1;
      var init, last := slots[..n], slots[n];
      FullSlots(init);
      FilledLast(slots, init, last);
      HeldSize(last);
      if |Filled(slots)| == |slots| {
        assert Values(slots) == Values(init) + [last.value];
      }
    } else {
      assert Filled(slots) == multiset{} by { NothingFilled(); }
    }
  }

  lemma NothingFilled()
    ensures Filled([]) == multiset{}
  {
  }

  lemma HeldSize(slot: Option<Answer>)
    ensures |Held(slot)| <= 1 && (|Held(slot)| == 1 <==> slot.Some?)
    ensures slot.Some? ==> Held(slot) == multiset{slot.value}
  {
  }

  function Values(slots: seq<Option<Answer>>): (vs: seq<Answer>)
    requires forall i :: 0 <= i < |slots| ==> slots[i].Some?
    ensures |vs| == |slots|
    ensures forall i :: 0 <= i < |slots| ==> vs[i] == slots[i].value
  {
    seq(|slots|, i requires 0 <= i < |slots| => slots[i].value)
  }

  /* ---------- Ordering ---------- */

  ghost predicate IndexesById(pos: map<string, nat>, reqs: seq<Asked>) {
    && (forall k :: 0 <= k < |reqs| ==> NormalizeId(reqs[k].id) in pos && pos[NormalizeId(reqs[k].id)] == k)
    && (forall id :: id in pos ==> pos[id] < |reqs| && NormalizeId(reqs[pos[id]].id) == id)
  }

  /** The positions of the requests by id, unless two of them share one. */
  method PositionsById(reqs: seq<Asked>) returns (pos: Option<map<string, nat>>)
    ensures pos.Some? <==> DistinctIds(reqs)
    ensures pos.Some? ==> IndexesById(pos.value, reqs)
  {
    hide NormalizeId;
    var found: map<string, nat> := map[];
    for i := 0 to |reqs|
      invariant forall k :: 0 <= k < i ==> NormalizeId(reqs[k].id) in found && found[NormalizeId(reqs[k].id)] == k
      invariant forall id :: id in found ==> found[id] < i && NormalizeId(reqs[found[id]].id) == id
      invariant DistinctIds(reqs[..i])
    {
      var id := NormalizeId(reqs[i].id);
      if id in found {
        assert NormalizeId(reqs[found[id]].id) == NormalizeId(reqs[i].id);
        return None;
      }
      found := found[id := i];
    }
    assert reqs[..|reqs|] == reqs;
    return Some(found);
  }

  /** The first j answers are in the slots of the requests they name. */
  ghost predicate Placed(slots: seq<Option<Answer>>, answers: seq<Answer>, reqs: seq<Asked>, j: nat) {
    && |slots| == |reqs| && j <= |answers|
    && (forall i :: 0 <= i < |slots| && slots[i].Some? ==>
        Names(slots[i].value, reqs[i]) && slots[i].value in answers[..j])
    && (forall l :: 0 <= l < j ==> exists i :: 0 <= i < |slots| && slots[i] == Some(answers[l]))
    && DistinctAnswers(answers[..j])
    && Filled(slots) == multiset(answers[..j])
  }

  lemma PlaceNext(slots: seq<Option<Answer>>, answers: seq<Answer>, reqs: seq<Asked>, j: nat, i: nat)
    requires Placed(slots, answers, reqs, j) && j < |answers|
    requires DistinctIds(reqs) && i < |slots| && slots[i].None? && Names(answers[j], reqs[i])
    ensures Placed(slots[i := Some(answers[j])], answers, reqs, j + 1)
  {
    hide NormalizeId, Filled;
    var next := slots[i := Some(answers[j])];
    FillOne(slots, i, answers[j]);
    assert answers[..j + 1] == answers[..j] + [answers[j]];
    forall l | 0 <= l < j + 1
      ensures exists k :: 0 <= k < |next| && next[k] == Some(answers[l])
    {
      if l < j {
        var k :| 0 <= k < |slots| && slots[k] == Some(answers[l]);
        assert next[k] == Some(answers[l]);
      } else {
        assert next[i] == Some(answers[l]);
      }
    }
    forall l | 0 <= l < j
      ensures NamedId(answers[l]) != NamedId(answers[j])
    {
      var k :| 0 <= k < |slots| && slots[k] == Some(answers[l]);
      assert Names(answers[l], reqs[k]) && k != i;
    }
  }

  /** An answer that names a request already answered ends the matching. */
  lemma TakenSlot(slots: seq<Option<Answer>>, answers: seq<Answer>, reqs: seq<Asked>, j: nat, i: nat)
    requires Placed(slots, answers, reqs, j) && j < |answers|
    requires i < |slots| && slots[i].Some? && Names(answers[j], reqs[i])
    ensures !Matchable(answers, reqs)
  {
    hide NormalizeId, Filled;
    var l :| 0 <= l < j && answers[l] == slots[i].value;
    assert NamedId(answers[l]) == NamedId(answers[j]);
  }

  lemma AllPlaced(slots: seq<Option<Answer>>, answers: seq<Answer>, reqs: seq<Asked>)
    requires Placed(slots, answers, reqs, |answers|) && |answers| == |reqs|
    ensures forall i :: 0 <= i < |slots| ==> slots[i].Some?
    ensures Aligned(Values(slots), answers, reqs)
  {
    hide Names, Filled;
    assert answers[..|answers|] == answers;
    assert |multiset(answers)| == |answers|;
    FullSlots(slots);
  }

  lemma PlacedMatches(slots: seq<Option<Answer>>, answers: seq<Answer>, reqs: seq<Asked>)
    requires Placed(slots, answers, reqs, |answers|) && |answers| == |reqs| && DistinctIds(reqs)
    ensures Matchable(answers, reqs)
  {
    hide Names, Filled, NormalizeId, DistinctIds;
    forall l | 0 <= l < |answers|
      ensures NamesSome(answers[l], reqs)
    {
      var i :| 0 <= i < |slots| && slots[i] == Some(answers[l]);
      assert Names(slots[i].value, reqs[i]);
    }
  }

  /** orderBatchResponses: the one-to-one arrangement when there is one, and the
      answers as they came when there is none. */
  method OrderBatchResponses(answers: seq<Answer>, reqs: seq<Asked>) returns (ordered: seq<Answer>)
    ensures IsOrdered(ordered, answers, reqs)
  {
    hide NormalizeId, Filled, DistinctIds;
    if |answers| != |reqs| {
      return answers;
    }
    var pos := PositionsById(reqs);
    if pos.None? {
      return answers;
    }
    var slots := NoAnswers(|reqs|);
    EmptySlots(|reqs|);
    for j := 0 to |answers|
      invariant Placed(slots, answers, reqs, j)
    {
      var a := answers[j];
      if a.Unreadable? {
        return answers;
      }
      var id := NormalizeId(a.id);
      if id !in pos.value {
        return answers;
      }
      var i := pos.value[id];
      if slots[i].Some? {
        TakenSlot(slots, answers, reqs, j, i);
        return answers;
      }
      PlaceNext(slots, answers, reqs, j, i);
      slots := slots[i := Some(a)];
    }
    AllPlaced(slots, answers, reqs);
    PlacedMatches(slots, answers, reqs);
    return Values(slots);
  }

  /* ---------- When every request is answered ---------- */

  ghost predicate NamedBySome(r: Asked, answers: seq<Answer>) {
    exists j :: 0 <= j < |answers| && Names(answers[j], r)
  }

  /** The upstream answers each request exactly once: as many answers as
      requests, and none of the requests without one. */
  ghost predicate AnsweredOnce(answers: seq<Answer>, reqs: seq<Asked>) {
    |answers| == |reqs| && forall i :: 0 <= i < |reqs| ==> NamedBySome(reqs[i], answers)
  }

  function Places(f: seq<nat>): set<nat> {
    set i | 0 <= i < |f| :: f[i]
  }

  lemma {:induction false} PlacesCount(f: seq<nat>)
    requires forall i, k :: 0 <= i < k < |f| ==> f[i] != f[k]
    ensures |Places(f)| == |f|
  {
    if f != [] {
      var n := |f| - 1;
      PlacesCount(f[..n]);
      assert Places(f) == Places(f[..n]) + {f[n]} by {
        forall x | x in Places(f)
          ensures x in Places(f[..n]) + {f[n]}
        {
          var i :| 0 <= i < |f| && f[i] == x;
          assert i < n ==> f[..n][i] == x;
        }
      }
    }
  }

  lemma SameSize(a: set<nat>, b: set<nat>)
    requires a <= b && |a| == |b|
    ensures a == b
  {
    assert |b - a| == |b| - |a|;
  }

  /** n distinct places below n are all of them. */
  lemma Pigeonhole(f: seq<nat>, j: nat) returns (i: nat)
    requires forall i :: 0 <= i < |f| ==> f[i] < |f|
    requires forall i, k :: 0 <= i < k < |f| ==> f[i] != f[k]
    requires j < |f|
    ensures i < |f| && f[i] == j
  {
    PlacesCount(f);
    SameSize(Places(f), Below(|f|));
    assert j in Places(f);
    i :| 0 <= i < |f| && f[i] == j;
  }

  /** Where each request's answer is. */
  lemma {:induction false} AnswerPlaces(answers: seq<Answer>, reqs: seq<Asked>, n: nat) returns (f: seq<nat>)
    requires AnsweredOnce(answers, reqs) && n <= |reqs|
    ensures |f| == n && forall i :: 0 <= i < n ==> f[i] < |answers| && Names(answers[f[i]], reqs[i])
  {
    hide Names;
    f := [];
    if n > 0 {
      f := AnswerPlaces(answers, reqs, n - 1);
      assert NamedBySome(reqs[n - 1], answers);
      var j :| 0 <= j < |answers| && Names(answers[j], reqs[n - 1]);
      f := f + [j];
    }
  }

  lemma PlacesDiffer(answers: seq<Answer>, reqs: seq<Asked>, f: seq<nat>)
    requires DistinctIds(reqs) && |f| == |reqs|
    requires forall i :: 0 <= i < |f| ==> f[i] < |answers| && Names(answers[f[i]], reqs[i])
    ensures forall i, k :: 0 <= i < k < |f| ==> f[i] != f[k]
  {
    hide NormalizeId;
  }

  lemma AnswersDiffer(answers: seq<Answer>, reqs: seq<Asked>, f: seq<nat>, j: nat, l: nat)
    requires DistinctIds(reqs) && |f| == |reqs| == |answers| && j < l < |answers|
    requires forall i :: 0 <= i < |f| ==> f[i] < |answers| && Names(answers[f[i]], reqs[i])
    ensures NamedId(answers[j]) != NamedId(answers[l])
  {
    hide NormalizeId, NamedId;
    PlacesDiffer(answers, reqs, f);
    var i := Pigeonhole(f, j);
    var k := Pigeonhole(f, l);
    assert Names(answers[f[i]], reqs[i]) && Names(answers[f[k]], reqs[k]);
  }

  lemma AnsweredMatches(answers: seq<Answer>, reqs: seq<Asked>)
    requires DistinctIds(reqs) && AnsweredOnce(answers, reqs)
    ensures Matchable(answers, reqs)
  {
    hide NamedId, Names, DistinctIds;
    var f := AnswerPlaces(answers, reqs, |reqs|);
    PlacesDiffer(answers, reqs, f);
    forall j | 0 <= j < |answers|
      ensures NamesSome(answers[j], reqs)
    {
      var i := Pigeonhole(f, j);
      assert Names(answers[f[i]], reqs[i]);
    }
    forall j, l | 0 <= j < l < |answers|
      ensures NamedId(answers[j]) != NamedId(answers[l])
    {
      AnswersDiffer(answers, reqs, f, j, l);
    }
  }

  /** Distinct ids, each answered once, make the answers matchable: no answer is
      left over and no two answers share an id. */
  lemma MatchableExactly(answers: seq<Answer>, reqs: seq<Asked>)
    requires DistinctIds(reqs)
    ensures Matchable(answers, reqs) <==> AnsweredOnce(answers, reqs)
  {
    hide Matchable, AnsweredOnce, DistinctIds;
    if Matchable(answers, reqs) {
      MatchableAnswers(answers, reqs);
    }
    if AnsweredOnce(answers, reqs) {
      AnsweredMatches(answers, reqs);
    }
  }

  lemma MatchableAnswers(answers: seq<Answer>, reqs: seq<Asked>)
    requires Matchable(answers, reqs)
    ensures AnsweredOnce(answers, reqs)
  {
    hide NormalizeId;
    var g := RequestPlaces(answers, reqs, |answers|);
    assert forall j, l :: 0 <= j < l < |g| ==> NamedId(answers[j]) != NamedId(answers[l]) ==> g[j] != g[l];
    forall i | 0 <= i < |reqs|
      ensures NamedBySome(reqs[i], answers)
    {
      var j := Pigeonhole(g, i);
      assert Names(answers[j], reqs[g[j]]);
    }
  }

  lemma {:induction false} RequestPlaces(answers: seq<Answer>, reqs: seq<Asked>, n: nat) returns (g: seq<nat>)
    requires Matchable(answers, reqs) && n <= |answers|
    ensures |g| == n && forall j :: 0 <= j < n ==> g[j] < |reqs| && Names(answers[j], reqs[g[j]])
  {
    hide Names, NormalizeId;
    g := [];
    if n > 0 {
      g := RequestPlaces(answers, reqs, n - 1);
      assert NamesSome(answers[n - 1], reqs);
      var i :| 0 <= i < |reqs| && Names(answers[n - 1], reqs[i]);
      g := g + [i];
    }
  }

  /** Every answer sits at its own request: what the rest of the handler assumes. */
  ghost predicate InPlace(ordered: seq<Answer>, reqs: seq<Asked>) {
    |ordered| == |reqs| && forall i :: 0 <= i < |reqs| ==> Names(ordered[i], reqs[i])
  }

  lemma SamePlace(ordered: seq<Answer>, answers: seq<Answer>, reqs: seq<Asked>, i: nat)
    requires InPlace(answers, reqs) && Aligned(ordered, answers, reqs) && DistinctIds(reqs) && i < |reqs|
    ensures ordered[i] == answers[i]
  {
    hide NormalizeId, NamedId;
    assert ordered[i] in multiset(answers);
    var j :| 0 <= j < |answers| && answers[j] == ordered[i];
    assert Names(answers[j], reqs[j]) && Names(ordered[i], reqs[i]);
  }

  /** Ordering gives every position an answer with its request's id exactly when
      the answers can be matched by id or were in such an order already, as those
      the batch processor hands over are; and then they stay as they are. */
  lemma OrderedExactly(ordered: seq<Answer>, answers: seq<Answer>, reqs: seq<Asked>)
    requires IsOrdered(ordered, answers, reqs)
    ensures InPlace(ordered, reqs) <==> Matchable(answers, reqs) || InPlace(answers, reqs)
    ensures InPlace(answers, reqs) ==> ordered == answers
  {
    hide Names, DistinctAnswers, NamesSome;
    if InPlace(answers, reqs) && Matchable(answers, reqs) {
      forall i | 0 <= i < |reqs|
        ensures ordered[i] == answers[i]
      {
        SamePlace(ordered, answers, reqs, i);
      }
    }
  }

  /* ---------- When ordering is right ---------- */

  /** The true answers, in request order; truth gives each key's body. */
  function TrueReplies(reqs: seq<Asked>, truth: string -> string): (t: seq<Answer>)
    ensures |t| == |reqs| && forall i :: 0 <= i < |reqs| ==> t[i] == Answer(reqs[i].id, truth(reqs[i].key))
  {
    seq(|reqs|, i requires 0 <= i < |reqs| => Answer(reqs[i].id, truth(reqs[i].key)))
  }

  /** Every position carries the true answer to its own request. */
  predicate OwnBodies(ordered: seq<Answer>, reqs: seq<Asked>, truth: string -> string) {
    |ordered| == |reqs| && forall i :: 0 <= i < |reqs| ==> ordered[i].Answer? && ordered[i].body == truth(reqs[i].key)
  }

  /** However an upstream orders the true answers, each ends up at its own request. */
  ghost predicate AlwaysRight(reqs: seq<Asked>, truth: string -> string) {
    forall answers, ordered ::
      multiset(answers) == multiset(TrueReplies(reqs, truth)) && IsOrdered(ordered, answers, reqs) ==>
        OwnBodies(ordered, reqs, truth)
  }

  /** All the requests have the same answer. */
  predicate SameTruth(reqs: seq<Asked>, truth: string -> string) {
    forall i, j :: 0 <= i < j < |reqs| ==> truth(reqs[i].key) == truth(reqs[j].key)
  }

  lemma TrueRepliesAnswer(reqs: seq<Asked>, truth: string -> string, answers: seq<Answer>)
    requires multiset(answers) == multiset(TrueReplies(reqs, truth))
    ensures AnsweredOnce(answers, reqs)
  {
    hide NormalizeId;
    var t := TrueReplies(reqs, truth);
    assert |answers| == |multiset(answers)| == |multiset(t)| == |t|;
    forall i | 0 <= i < |reqs|
      ensures NamedBySome(reqs[i], answers)
    {
      assert t[i] in multiset(answers);
      var j :| 0 <= j < |answers| && answers[j] == t[i];
      assert Names(answers[j], reqs[i]);
    }
  }

  lemma TrueReplyAt(reqs: seq<Asked>, truth: string -> string, a: Answer, i: nat)
    requires DistinctIds(reqs) && i < |reqs| && a in multiset(TrueReplies(reqs, truth)) && Names(a, reqs[i])
    ensures a == TrueReplies(reqs, truth)[i]
  {
    hide NormalizeId;
    var t := TrueReplies(reqs, truth);
    var k :| 0 <= k < |t| && t[k] == a;
    assert Names(t[k], reqs[k]);
  }

  lemma DistinctIdsAreRight(reqs: seq<Asked>, truth: string -> string, answers: seq<Answer>, ordered: seq<Answer>)
    requires DistinctIds(reqs) && multiset(answers) == multiset(TrueReplies(reqs, truth))
        && IsOrdered(ordered, answers, reqs)
    ensures OwnBodies(ordered, reqs, truth)
  {
    TrueRepliesAnswer(reqs, truth, answers);
    MatchableExactly(answers, reqs);
    hide Matchable, DistinctIds, AnsweredOnce, Names;
    forall i | 0 <= i < |reqs|
      ensures ordered[i] == TrueReplies(reqs, truth)[i]
    {
      assert ordered[i] in multiset(ordered);
      TrueReplyAt(reqs, truth, ordered[i], i);
    }
  }

  lemma SameTruthIsRight(reqs: seq<Asked>, truth: string -> string, answers: seq<Answer>, ordered: seq<Answer>)
    requires SameTruth(reqs, truth) && multiset(answers) == multiset(TrueReplies(reqs, truth))
        && IsOrdered(ordered, answers, reqs)
    ensures OwnBodies(ordered, reqs, truth)
  {
    hide Matchable, Names;
    var t := TrueReplies(reqs, truth);
    assert multiset(ordered) == multiset(t);
    assert |ordered| == |multiset(ordered)| == |t|;
    forall i | 0 <= i < |reqs|
      ensures ordered[i].Answer? && ordered[i].body == truth(reqs[i].key)
    {
      assert ordered[i] in multiset(t);
      var k :| 0 <= k < |t| && t[k] == ordered[i];
    }
  }

  /** The true answers with two of them swapped. */
  function Swapped(t: seq<Answer>, i: nat, j: nat): (s: seq<Answer>)
    requires i < j < |t|
    ensures |s| == |t| && s[i] == t[j] && multiset(s) == multiset(t)
  {
    t[i := t[j]][j := t[i]]
  }

  /** Exactly when ordering is right: when no two requests share an id, or when all
      of them have the same answer anyway. One shared id is enough to spoil every
      position, because the whole reply is then left in the upstream's order. */
  lemma AlwaysRightExactly(reqs: seq<Asked>, truth: string -> string)
    ensures AlwaysRight(reqs, truth) <==> DistinctRaw(reqs) || SameTruth(reqs, truth)
  {
    DistinctExactly(reqs);
    hide NormalizeId, DistinctIds, DistinctRaw;
    if DistinctIds(reqs) || SameTruth(reqs, truth) {
      forall answers, ordered |
        multiset(answers) == multiset(TrueReplies(reqs, truth)) && IsOrdered(ordered, answers, reqs)
        ensures OwnBodies(ordered, reqs, truth)
      {
        if DistinctIds(reqs) {
          DistinctIdsAreRight(reqs, truth, answers, ordered);
        } else {
          SameTruthIsRight(reqs, truth, answers, ordered);
        }
      }
    } else {
      var i, j :| 0 <= i < j < |reqs| && truth(reqs[i].key) != truth(reqs[j].key);
      var crossed := Swapped(TrueReplies(reqs, truth), i, j);
      assert IsOrdered(crossed, crossed, reqs) && !OwnBodies(crossed, reqs, truth);
    }
  }

  /** Two requests that share an id, answered in the other order, get each other's
      answers; and a third request with an id of its own loses its answer too. */
  lemma {:induction false} SharedIdsMayCross()
    ensures var reqs := [Asked("1", "a"), Asked("1", "b"), Asked("2", "c")];
            var answers := [Answer("2", "to c"), Answer("1", "to b"), Answer("1", "to a")];
            forall ordered :: IsOrdered(ordered, answers, reqs) ==> ordered == answers
  {
    var reqs := [Asked("1", "a"), Asked("1", "b"), Asked("2", "c")];
    assert !DistinctIds(reqs) by {
      assert NormalizeId(reqs[0].id) == NormalizeId(reqs[1].id);
    }
  }

  /* ---------- Splitting, merging and storing ---------- */

  /** The positions the cache does not answer, in order. */
  function Misses(hits: seq<Option<string>>): (at: seq<nat>)
    ensures |at| <= |hits| && forall j :: 0 <= j < |at| ==> at[j] < |hits|
  {
    if hits == [] then []
    else
      var n := |hits| - 1;
      Misses(hits[..n]) + if hits[n].None? then [n] else []
  }

  /** A cached body, stamped with the id of the request it now answers. */
  function Restamped(reqs: seq<Asked>, hits: seq<Option<string>>): (cached: seq<Option<Answer>>)
    requires |hits| == |reqs|
    ensures |cached| == |reqs|
    ensures forall i :: 0 <= i < |reqs| ==>
              cached[i] == if hits[i].Some? then Some(Answer(reqs[i].id, hits[i].value)) else None
  {
    seq(|reqs|, i requires 0 <= i < |reqs| => if hits[i].Some? then Some(Answer(reqs[i].id, hits[i].value)) else None)
  }

  /** The split of a batch; hits[i] is the body the cache holds for request i. */
  method SplitBatch(reqs: seq<Asked>, hits: seq<Option<string>>)
    returns (cached: seq<Option<Answer>>, uncachedIndices: seq<nat>, uncached: seq<Asked>)
    requires |hits| == |reqs|
    ensures cached == Restamped(reqs, hits)
    ensures uncachedIndices == Misses(hits)
    ensures uncached == Picked(reqs, Misses(hits))
  {
    cached := NoAnswers(|reqs|);
    uncachedIndices, uncached := [], [];
    for i := 0 to |reqs|
      invariant |cached| == |reqs|
      invariant forall k :: 0 <= k < i ==> cached[k] == Restamped(reqs, hits)[k]
      invariant forall k :: i <= k < |reqs| ==> cached[k].None?
      invariant uncachedIndices == Misses(hits[..i])
      invariant uncached == Picked(reqs, Misses(hits[..i]))
    {
      assert hits[..i + 1][..i] == hits[..i];
      if hits[i].Some? {
        cached := cached[i := Some(Answer(reqs[i].id, hits[i].value))];
      } else {
        uncachedIndices := uncachedIndices + [i];
        uncached := uncached + [reqs[i]];
      }
    }
    assert hits[..|hits|] == hits;
  }

  function Fetched(answers: seq<Answer>): (slots: seq<Option<Answer>>)
    ensures |slots| == |answers| && forall j :: 0 <= j < |answers| ==> slots[j] == Some(answers[j])
  {
    seq(|answers|, j requires 0 <= j < |answers| => Some(answers[j]))
  }

  /** The batch's reply once the first n upstream answers are merged in. */
  function Merge(cached: seq<Option<Answer>>, at: seq<nat>, answers: seq<Answer>, n: nat): (m: seq<Option<Answer>>)
    requires n <= |at| && n <= |answers|
    requires forall j :: 0 <= j < |at| ==> at[j] < |cached|
    ensures |m| == |cached|
  {
    Overwritten(cached, at, Fetched(answers), n)
  }

  method MergeBatch(cached: seq<Option<Answer>>, uncachedIndices: seq<nat>, answers: seq<Answer>)
    returns (merged: seq<Option<Answer>>)
    requires forall j :: 0 <= j < |uncachedIndices| ==> uncachedIndices[j] < |cached|
    ensures merged == Merge(cached, uncachedIndices, answers, Min(|uncachedIndices|, |answers|))
  {
    merged := NoAnswers(|cached|);
    for i := 0 to |cached|
      invariant |merged| == |cached|
      invariant forall k :: 0 <= k < i ==> merged[k] == cached[k]
      invariant forall k :: i <= k < |cached| ==> merged[k].None?
    {
      if cached[i].Some? {
        merged := merged[i := cached[i]];
      }
    }
    assert merged == cached;
    for idx := 0 to |answers|
      invariant merged == Merge(cached, uncachedIndices, answers, Min(|uncachedIndices|, idx))
    {
      if idx < |uncachedIndices| {
        merged := merged[uncachedIndices[idx] := Some(answers[idx])];
      }
    }
  }

  /** What the first n positions store: upstream answers with a positive lifetime. */
  function Writes(reqs: seq<Asked>, cached: seq<Option<Answer>>, merged: seq<Option<Answer>>,
                  lifetime: Answer -> int, n: nat): seq<StoreWrite>
    requires n <= |reqs| == |cached| == |merged|
  {
    if n == 0 then []
    else
      var i := n - 1;
      Writes(reqs, cached, merged, lifetime, i)
      + if cached[i].None? && merged[i].Some? && lifetime(merged[i].value) > 0
        then [StoreWrite(reqs[i].key, merged[i].value)] else []
  }

  /** The store loop; lifetime stands for AnswerTTL. */
  method StoreBatch(reqs: seq<Asked>, cached: seq<Option<Answer>>, merged: seq<Option<Answer>>, lifetime: Answer -> int)
    returns (writes: seq<StoreWrite>)
    requires |reqs| == |cached| == |merged|
    ensures writes == Writes(reqs, cached, merged, lifetime, |reqs|)
  {
    writes := [];
    for i := 0 to |merged|
      invariant writes == Writes(reqs, cached, merged, lifetime, i)
    {
      if cached[i].Some? {
        continue;
      }
      if merged[i].Some? {
        if lifetime(merged[i].value) > 0 {
          writes := writes + [StoreWrite(reqs[i].key, merged[i].value)];
        }
      }
    }
  }

  lemma {:induction false} MissesAscend(hits: seq<Option<string>>)
    ensures forall j, l :: 0 <= j < l < |Misses(hits)| ==> Misses(hits)[j] < Misses(hits)[l]
    ensures forall i :: 0 <= i < |hits| ==> (i in Misses(hits) <==> hits[i].None?)
  {
    if hits != [] {
      MissesAscend(hits[..|hits| - 1]);
    }
  }

  lemma MissIsOwn(reqs: seq<Asked>, hits: seq<Option<string>>, ordered: seq<Answer>, j: nat)
    requires |hits| == |reqs| && InPlace(ordered, Picked(reqs, Misses(hits))) && j < |Misses(hits)|
    ensures |ordered| == |Misses(hits)| && Misses(hits)[j] < |reqs|
    ensures Fetched(ordered)[j] == Some(ordered[j]) && Names(ordered[j], reqs[Misses(hits)[j]])
  {
    MissesAscend(hits);
    hide Misses;
    assert Names(ordered[j], Picked(reqs, Misses(hits))[j]);
  }

  lemma HitIsOwn(r: Asked, body: string)
    ensures Names(Answer(r.id, body), r)
  {
  }

  lemma MergedAt(reqs: seq<Asked>, hits: seq<Option<string>>, ordered: seq<Answer>)
    requires |hits| == |reqs| && |ordered| == |Misses(hits)|
    ensures var at, m := Misses(hits), Merge(Restamped(reqs, hits), Misses(hits), ordered, |ordered|);
            && (forall i :: 0 <= i < |reqs| && hits[i].Some? ==> m[i] == Restamped(reqs, hits)[i])
            && forall j :: 0 <= j < |at| ==> m[at[j]] == Some(ordered[j])
  {
    var at := Misses(hits);
    MissesAscend(hits);
    OverwrittenAt(Restamped(reqs, hits), at, Fetched(ordered), |ordered|);
    assert at[..|ordered|] == at;
    hide Misses, Restamped;
  }

  lemma PositionIsOwn(reqs: seq<Asked>, hits: seq<Option<string>>, ordered: seq<Answer>, i: nat)
    requires |hits| == |reqs| && InPlace(ordered, Picked(reqs, Misses(hits))) && i < |reqs|
    ensures var m := Merge(Restamped(reqs, hits), Misses(hits), ordered, |ordered|)[i];
            && m.Some? && Names(m.value, reqs[i])
            && (if hits[i].Some? then m.value == Answer(reqs[i].id, hits[i].value) else m.value in ordered)
  {
    MissesAscend(hits);
    hide Misses, Names, Merge;
    MergedAt(reqs, hits, ordered);
    if hits[i].None? {
      var j :| 0 <= j < |Misses(hits)| && Misses(hits)[j] == i;
      MissIsOwn(reqs, hits, ordered, j);
    } else {
      HitIsOwn(reqs[i], hits[i].value);
    }
  }

  /** Every request of a batch gets its own response: the cached body under its
      own id, or the upstream's answer that carries its id. */
  lemma EveryPositionIsOwn(reqs: seq<Asked>, hits: seq<Option<string>>, ordered: seq<Answer>)
    requires |hits| == |reqs| && InPlace(ordered, Picked(reqs, Misses(hits)))
    ensures var merged := Merge(Restamped(reqs, hits), Misses(hits), ordered, |ordered|);
            forall i :: 0 <= i < |reqs| ==>
              && merged[i].Some? && Names(merged[i].value, reqs[i])
              && (if hits[i].Some? then merged[i].value == Answer(reqs[i].id, hits[i].value)
                  else merged[i].value in ordered)
  {
    var merged := Merge(Restamped(reqs, hits), Misses(hits), ordered, |ordered|);
    forall i | 0 <= i < |reqs|
      ensures merged[i].Some? && Names(merged[i].value, reqs[i])
      ensures if hits[i].Some? then merged[i].value == Answer(reqs[i].id, hits[i].value) else merged[i].value in ordered
    {
      PositionIsOwn(reqs, hits, ordered, i);
    }
  }

  /** Exactly the upstream's answers that may be kept are stored, each under the key of
      the request at its position. */
  lemma {:induction false} WritesExactly(reqs: seq<Asked>, cached: seq<Option<Answer>>, merged: seq<Option<Answer>>,
                                         lifetime: Answer -> int, n: nat, w: StoreWrite)
    requires n <= |reqs| == |cached| == |merged|
    ensures w in Writes(reqs, cached, merged, lifetime, n) <==>
            exists i :: && 0 <= i < n && cached[i].None? && merged[i] == Some(w.answer)
                        && w.key == reqs[i].key && lifetime(w.answer) > 0
  {
    if n > 0 {
      WritesExactly(reqs, cached, merged, lifetime, n - 1, w);
    }
  }

  lemma WritesAreFresh(reqs: seq<Asked>, cached: seq<Option<Answer>>, merged: seq<Option<Answer>>,
                       lifetime: Answer -> int, n: nat, w: StoreWrite)
    returns (i: nat)
    requires n <= |reqs| == |cached| == |merged| && w in Writes(reqs, cached, merged, lifetime, n)
    ensures i < n && cached[i].None? && merged[i] == Some(w.answer) && w.key == reqs[i].key && lifetime(w.answer) > 0
  {
    WritesExactly(reqs, cached, merged, lifetime, n, w);
    i :| && 0 <= i < n && cached[i].None? && merged[i] == Some(w.answer)
         && w.key == reqs[i].key && lifetime(w.answer) > 0;
  }

  /** The upstream's answers depend on nothing but the request's key. */
  ghost predicate Honest(truth: string -> string, answers: seq<Answer>, reqs: seq<Asked>) {
    forall j, i :: 0 <= j < |answers| && 0 <= i < |reqs| && Names(answers[j], reqs[i]) ==>
        answers[j].body == truth(reqs[i].key)
  }

  /** A batch answered partly from a truthful cache and partly by an honest
      upstream, in whatever order, carries the true answer at every position, and
      stores nothing but upstream answers, each true for the key it is stored under. */
  lemma {:induction false} BatchStaysTruthful(reqs: seq<Asked>, hits: seq<Option<string>>, answers: seq<Answer>,
                                              ordered: seq<Answer>, truth: string -> string, lifetime: Answer -> int)
    requires |hits| == |reqs|
    requires forall i :: 0 <= i < |reqs| && hits[i].Some? ==> hits[i].value == truth(reqs[i].key)
    requires DistinctIds(Picked(reqs, Misses(hits))) && AnsweredOnce(answers, Picked(reqs, Misses(hits)))
    requires Honest(truth, answers, Picked(reqs, Misses(hits)))
    requires IsOrdered(ordered, answers, Picked(reqs, Misses(hits)))
    ensures |ordered| == |Misses(hits)|
    ensures var merged := Merge(Restamped(reqs, hits), Misses(hits), ordered, |ordered|);
            && (forall i :: 0 <= i < |reqs| ==>
                  merged[i].Some? && Names(merged[i].value, reqs[i]) && merged[i].value.body == truth(reqs[i].key))
            && (forall w :: w in Writes(reqs, Restamped(reqs, hits), merged, lifetime, |reqs|) ==>
                  w.answer in answers && w.answer.Answer? && w.answer.body == truth(w.key))
  {
    hide NormalizeId, Misses, DistinctIds, AnsweredOnce;
    var uncached, cached := Picked(reqs, Misses(hits)), Restamped(reqs, hits);
    MatchableExactly(answers, uncached);
    hide Matchable;
    EveryPositionIsOwn(reqs, hits, ordered);
    var merged := Merge(cached, Misses(hits), ordered, |ordered|);
    forall i | 0 <= i < |reqs|
      ensures merged[i].value.Answer? && merged[i].value.body == truth(reqs[i].key)
      ensures hits[i].None? ==> merged[i].value in answers
    {
      if hits[i].None? {
        TrueAt(reqs, hits, answers, ordered, truth, i, merged[i].value);
      }
    }
    forall w | w in Writes(reqs, cached, merged, lifetime, |reqs|)
      ensures w.answer in answers && w.answer.Answer? && w.answer.body == truth(w.key)
    {
      var i := WritesAreFresh(reqs, cached, merged, lifetime, |reqs|, w);
    }
  }

  lemma TrueAt(reqs: seq<Asked>, hits: seq<Option<string>>, answers: seq<Answer>, ordered: seq<Answer>,
               truth: string -> string, i: nat, a: Answer)
    requires |hits| == |reqs| && i < |reqs| && hits[i].None?
    requires multiset(ordered) == multiset(answers) && a in ordered && Names(a, reqs[i])
    requires Honest(truth, answers, Picked(reqs, Misses(hits)))
    ensures a in answers && a.Answer? && a.body == truth(reqs[i].key)
  {
    hide NormalizeId;
    MissesAscend(hits);
    assert a in multiset(answers);
    var j :| 0 <= j < |answers| && answers[j] == a;
    var l :| 0 <= l < |Misses(hits)| && Misses(hits)[l] == i;
    assert Names(answers[j], Picked(reqs, Misses(hits))[l]);
  }

  /** Merged with true cached answers, a batch is true at every position exactly
      when its upstream part is. */
  lemma MergedTrueExactly(reqs: seq<Asked>, hits: seq<Option<string>>, ordered: seq<Answer>, truth: string -> string)
    requires |hits| == |reqs| && |ordered| == |Misses(hits)|
    requires forall i :: 0 <= i < |reqs| && hits[i].Some? ==> hits[i].value == truth(reqs[i].key)
    ensures TrueBatch(Merge(Restamped(reqs, hits), Misses(hits), ordered, |ordered|), reqs, truth) <==>
            OwnBodies(ordered, Picked(reqs, Misses(hits)), truth)
  {
    var at := Misses(hits);
    MissesAscend(hits);
    OverwrittenAt(Restamped(reqs, hits), at, Fetched(ordered), |ordered|);
    hide Misses;
    assert at[..|ordered|] == at;
    var merged := Merge(Restamped(reqs, hits), at, ordered, |ordered|);
    assert forall j :: 0 <= j < |at| ==> merged[at[j]] == Some(ordered[j]);
    hide Merge;
    if TrueBatch(merged, reqs, truth) {
      forall j | 0 <= j < |at|
        ensures ordered[j].Answer? && ordered[j].body == truth(Picked(reqs, at)[j].key)
      {
        assert merged[at[j]].value == ordered[j];
      }
    }
    if OwnBodies(ordered, Picked(reqs, at), truth) {
      forall i | 0 <= i < |reqs|
        ensures merged[i].Some? && merged[i].value.Answer? && merged[i].value.body == truth(reqs[i].key)
      {
        if hits[i].None? {
          var j :| 0 <= j < |at| && at[j] == i;
        }
      }
    }
  }

  predicate TrueBatch(merged: seq<Option<Answer>>, reqs: seq<Asked>, truth: string -> string) {
    |merged| == |reqs| &&
    forall i :: 0 <= i < |reqs| ==>
      merged[i].Some? && merged[i].value.Answer? && merged[i].value.body == truth(reqs[i].key)
  }

  /** However the upstream orders its true answers, the whole batch is true. */
  ghost predicate BatchAlwaysTrue(reqs: seq<Asked>, hits: seq<Option<string>>, truth: string -> string)
    requires |hits| == |reqs|
  {
    var uncached := Picked(reqs, Misses(hits));
    forall answers, ordered ::
      multiset(answers) == multiset(TrueReplies(uncached, truth)) && IsOrdered(ordered, answers, uncached) ==>
        |ordered| == |Misses(hits)|
        && TrueBatch(Merge(Restamped(reqs, hits), Misses(hits), ordered, |ordered|), reqs, truth)
  }

  /** A batch whose cached answers are true is always true exactly when the
      requests sent upstream have distinct ids or all have the same answer. */
  lemma BatchTrueExactly(reqs: seq<Asked>, hits: seq<Option<string>>, truth: string -> string)
    requires |hits| == |reqs|
    requires forall i :: 0 <= i < |reqs| && hits[i].Some? ==> hits[i].value == truth(reqs[i].key)
    ensures var uncached := Picked(reqs, Misses(hits));
            BatchAlwaysTrue(reqs, hits, truth) <==> DistinctRaw(uncached) || SameTruth(uncached, truth)
  {
    var uncached := Picked(reqs, Misses(hits));
    AlwaysRightExactly(uncached, truth);
    hide IsOrdered, DistinctRaw, SameTruth, TrueBatch, OwnBodies, Misses, Merge;
    forall answers, ordered | multiset(answers) == multiset(TrueReplies(uncached, truth))
        && IsOrdered(ordered, answers, uncached)
      ensures |ordered| == |Misses(hits)|
      ensures TrueBatch(Merge(Restamped(reqs, hits), Misses(hits), ordered, |ordered|), reqs, truth) <==>
              OwnBodies(ordered, uncached, truth)
    {
      OrderedSize(ordered, answers, uncached, TrueReplies(uncached, truth));
      MergedTrueExactly(reqs, hits, ordered, truth);
    }
  }

  lemma OrderedSize(ordered: seq<Answer>, answers: seq<Answer>, reqs: seq<Asked>, t: seq<Answer>)
    requires IsOrdered(ordered, answers, reqs) && multiset(answers) == multiset(t)
    ensures |ordered| == |t|
  {
    hide Matchable, Names;
    assert |ordered| == |multiset(ordered)| == |multiset(t)| == |t|;
  }
}
