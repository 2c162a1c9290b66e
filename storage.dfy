/** The browser-side list store: practice scenarios and completed sessions
    kept as JSON arrays under two local-storage keys. Reading a key that is
    missing, empty or does not parse gives the empty list; a write that
    throws (a full quota, say) is caught and leaves the store as it was.
    Saving a scenario replaces the first one with the same id in place or
    appends it; deleting keeps every scenario with another id, in order;
    saving a session puts it first; looking a session up returns the first
    one with the id. */
module Storage {
  import opened Common

  const ScenariosKey: string := "speech-coach-scenarios"
  const SessionsKey: string := "speech-coach-sessions"

  datatype Prompt = Prompt(id: string, text: string)

  datatype Scenario = Scenario(id: string, title: string, description: string, icon: string,
                               prompts: seq<Prompt>, createdAt: string)

  /** `transcript` is optional; the numbers are JavaScript numbers. */
  datatype Session = Session(id: string, completedAt: string, fluencyScore: real, wordCount: real,
                             speechRate: real, fillerWordCount: real, transcript: Option<string>,
                             deliveryFeedback: seq<string>, contentFeedback: seq<string>, duration: real)

  /** What one key holds, as the reader sees it: nothing (absent or the
      empty string, both falsy), a list that parses, or text that makes
      JSON.parse throw. */
  datatype Slot<T> = Missing | Saved(items: seq<T>) | Corrupt

  /** `data ? JSON.parse(data) : []` inside a try whose catch returns `[]`. */
  function Contents<T>(slot: Slot<T>): (r: seq<T>)
    ensures slot.Saved? ==> r == slot.items
    ensures !slot.Saved? ==> r == []
  {
    if slot.Saved? then slot.items else []
  }

  predicate DistinctIds(items: seq<Scenario>) {
    forall i, j :: 0 <= i < j < |items| ==> items[i].id != items[j].id
  }

  /** `findIndex(s => s.id === id)`: the first index with the id, or -1. */
  function FindIndex(items: seq<Scenario>, id: string): (i: int)
    ensures -1 <= i < |items|
    ensures 0 <= i ==> items[i].id == id && forall j :: 0 <= j < i ==> items[j].id != id
    ensures i == -1 <==> forall j :: 0 <= j < |items| ==> items[j].id != id
  {
    if items == [] then -1
    else if items[0].id == id then 0
    else
      var k := FindIndex(items[1..], id);
      assert forall j :: 1 <= j < |items| ==> items[j] == items[1..][j - 1];
      if k < 0 then -1 else k + 1
  }

  /** The list `saveScenario` writes back. */
  function Upsert(items: seq<Scenario>, scenario: Scenario): (r: seq<Scenario>)
    ensures scenario in r
    ensures |items| <= |r| <= |items| + 1
  {
    var existingIndex := FindIndex(items, scenario.id);
    if existingIndex >= 0 then
      var r := items[existingIndex := scenario];
      assert r[existingIndex] == scenario;
      r
    else items + [scenario]
  }

  /** `filter(s => s.id !== id)`. */
  function RemoveId(items: seq<Scenario>, id: string): (r: seq<Scenario>)
    ensures |r| <= |items|
    ensures forall x :: x in r ==> x in items && x.id != id
    ensures forall x :: x in items && x.id != id ==> x in r
  {
    if items == [] then []
    else (if items[0].id == id then [] else [items[0]]) + RemoveId(items[1..], id)
  }

  /** `find(s => s.id === id)`: the first session with the id, if any. */
  function FindSession(sessions: seq<Session>, id: string): (r: Option<Session>)
    ensures r.Some? ==> r.value.id == id && r.value in sessions
    ensures r.None? <==> forall j :: 0 <= j < |sessions| ==> sessions[j].id != id
    ensures forall k :: 0 <= k < |sessions| && sessions[k].id == id && (forall j :: 0 <= j < k ==> sessions[j].id != id) ==>
              r == Some(sessions[k])
  {
    if sessions == [] then None
    else if sessions[0].id == id then Some(sessions[0])
    else
      assert forall j :: 1 <= j < |sessions| ==> sessions[j] == sessions[1..][j - 1];
      FindSession(sessions[1..], id)
  }

  /** An id already present: the first scenario with it is replaced at its
      own index and the length is unchanged. A new id: the scenario is
      appended. */
  lemma UpsertPlacement(items: seq<Scenario>, scenario: Scenario)
    ensures forall k :: 0 <= k < |items| && items[k].id == scenario.id
                        && (forall j :: 0 <= j < k ==> items[j].id != scenario.id) ==>
              Upsert(items, scenario) == items[k := scenario]
    ensures (forall j :: 0 <= j < |items| ==> items[j].id != scenario.id) ==>
              Upsert(items, scenario) == items + [scenario]
  {
    var i := FindIndex(items, scenario.id);
    forall k | 0 <= k < |items| && items[k].id == scenario.id && (forall j :: 0 <= j < k ==> items[j].id != scenario.id)
      ensures Upsert(items, scenario) == items[k := scenario]
    {
      assert i == k;
    }
  }

  /** The saved scenario is present afterwards, every scenario with another
      id keeps its index, and nothing but the saved scenario is new. */
  lemma UpsertContents(items: seq<Scenario>, scenario: Scenario)
    ensures scenario in Upsert(items, scenario)
    ensures |Upsert(items, scenario)| >= |items|
    ensures forall j :: 0 <= j < |items| && items[j].id != scenario.id ==> Upsert(items, scenario)[j] == items[j]
    ensures forall x :: x in Upsert(items, scenario) ==> x == scenario || x in items
  {
    var r := Upsert(items, scenario);
    var i := FindIndex(items, scenario.id);
    if i >= 0 {
      assert r[i] == scenario;
    } else {
      assert r[|items|] == scenario;
    }
  }

  /** Saving never creates a second scenario with the same id. */
  lemma UpsertKeepsIdsDistinct(items: seq<Scenario>, scenario: Scenario)
    requires DistinctIds(items)
    ensures DistinctIds(Upsert(items, scenario))
  {
    var r := Upsert(items, scenario);
    var i := FindIndex(items, scenario.id);
    if i >= 0 {
      forall a, b | 0 <= a < b < |r| ensures r[a].id != r[b].id {
        if a == i {
          assert r[b] == items[b];
        } else if b == i {
          assert r[a] == items[a];
        } else {
          assert r[a] == items[a] && r[b] == items[b];
        }
      }
    } else {
      forall a, b | 0 <= a < b < |r| ensures r[a].id != r[b].id {
        if b == |items| {
          assert r[a] == items[a];
        } else {
          assert r[a] == items[a] && r[b] == items[b];
        }
      }
    }
  }

  /** Saving the same scenario twice is the same as saving it once. */
  lemma UpsertIdempotent(items: seq<Scenario>, scenario: Scenario)
    ensures Upsert(Upsert(items, scenario), scenario) == Upsert(items, scenario)
  {
    var r := Upsert(items, scenario);
    var i := FindIndex(items, scenario.id);
    if i >= 0 {
      assert FindIndex(r, scenario.id) == i by {
        assert r[i].id == scenario.id;
        assert forall j :: 0 <= j < i ==> r[j] == items[j];
      }
    } else {
      assert FindIndex(r, scenario.id) == |items| by {
        assert r[|items|].id == scenario.id;
        assert forall j :: 0 <= j < |items| ==> r[j] == items[j];
      }
    }
  }

  /** One step of the filter: the first scenario, kept or dropped, then
      the filtered rest. */
  lemma RemoveIdUnfold(items: seq<Scenario>, id: string)
    requires items != []
    ensures RemoveId(items, id) == (if items[0].id == id then [] else [items[0]]) + RemoveId(items[1..], id)
  {
  }

  /** Filtering distributes over concatenation: the kept scenarios stay in
      their relative order. */
  lemma {:induction false} RemoveIdAppend(a: seq<Scenario>, b: seq<Scenario>, id: string)
    ensures RemoveId(a + b, id) == RemoveId(a, id) + RemoveId(b, id)
  {
    if a == [] {
      assert a + b == b;
    } else {
      var head := if a[0].id == id then [] else [a[0]];
      var x, y := RemoveId(a[1..], id), RemoveId(b, id);
      assert (a + b)[0] == a[0];
      assert (a + b)[1..] == a[1..] + b;
      RemoveIdUnfold(a + b, id);
      RemoveIdUnfold(a, id);
      RemoveIdAppend(a[1..], b, id);
      ConcatAssoc(head, x, y);
    }
  }

  lemma ConcatAssoc<T>(x: seq<T>, y: seq<T>, z: seq<T>)
    ensures x + (y + z) == (x + y) + z
  {
  }

  /** A single scenario survives exactly when its id differs. */
  lemma RemoveIdSingle(x: Scenario, id: string)
    ensures RemoveId([x], id) == if x.id == id then [] else [x]
  {
    assert [x][1..] == [];
  }

  /** Deleting an id no scenario has leaves the list as it is. */
  lemma {:induction false} RemoveIdNoMatch(items: seq<Scenario>, id: string)
    requires forall j :: 0 <= j < |items| ==> items[j].id != id
    ensures RemoveId(items, id) == items
  {
    if items != [] {
      assert forall j :: 1 <= j < |items| ==> items[j] == items[1..][j - 1];
      RemoveIdNoMatch(items[1..], id);
      assert [items[0]] + items[1..] == items;
    }
  }

  /** Deleting twice is deleting once. */
  lemma RemoveIdIdempotent(items: seq<Scenario>, id: string)
    ensures RemoveId(RemoveId(items, id), id) == RemoveId(items, id)
  {
    var r := RemoveId(items, id);
    forall j | 0 <= j < |r| ensures r[j].id != id {
      assert r[j] in r;
    }
    RemoveIdNoMatch(r, id);
  }

  /** Deleting a scenario's id after saving it gives what deleting it from
      the list before the save gives. */
  lemma DeleteAfterSave(items: seq<Scenario>, scenario: Scenario)
    ensures RemoveId(Upsert(items, scenario), scenario.id) == RemoveId(items, scenario.id)
  {
    var id := scenario.id;
    var i := FindIndex(items, id);
    if i >= 0 {
      assert items == items[..i] + [items[i]] + items[i + 1..];
      assert items[i := scenario] == items[..i] + [scenario] + items[i + 1..];
      RemoveIdAppend(items[..i] + [items[i]], items[i + 1..], id);
      RemoveIdAppend(items[..i], [items[i]], id);
      RemoveIdAppend(items[..i] + [scenario], items[i + 1..], id);
      RemoveIdAppend(items[..i], [scenario], id);
      RemoveIdSingle(items[i], id);
      RemoveIdSingle(scenario, id);
    } else {
      RemoveIdAppend(items, [scenario], id);
      RemoveIdSingle(scenario, id);
    }
  }

  /** After a session is put first, looking its id up finds it, and every
      other id is found where it was found before. */
  lemma NewestSessionWins(sessions: seq<Session>, session: Session, id: string)
    ensures FindSession([session] + sessions, session.id) == Some(session)
    ensures id != session.id ==> FindSession([session] + sessions, id) == FindSession(sessions, id)
  {
    assert ([session] + sessions)[1..] == sessions;
  }

  class LocalStore {
    /** The value under "speech-coach-scenarios". */
    var scenarios: Slot<Scenario>
    /** The value under "speech-coach-sessions". */
    var sessions: Slot<Session>

    constructor ()
      ensures scenarios == Missing && sessions == Missing
    {
      scenarios, sessions := Missing, Missing;
    }

    /** `getScenarios`: empty when nothing is stored or parsing fails. */
    function GetScenarios(): (r: seq<Scenario>)
      reads this
      ensures !scenarios.Saved? ==> r == []
    {
      Contents(scenarios)
    }

    /** `getSessions`: empty when nothing is stored or parsing fails. */
    function GetSessions(): (r: seq<Session>)
      reads this
      ensures !sessions.Saved? ==> r == []
    {
      Contents(sessions)
    }

    /** `getSessionById`. */
    function GetSessionById(id: string): (r: Option<Session>)
      reads this
      ensures r.Some? ==> r.value.id == id && r.value in GetSessions()
      ensures r.None? <==> forall s :: s in GetSessions() ==> s.id != id
    {
      FindSession(GetSessions(), id)
    }

    /** `saveScenario`; `writeFails` is whether `setItem` throws. */
    method SaveScenario(scenario: Scenario, writeFails: bool)
      modifies this
      ensures sessions == old(sessions)
      ensures writeFails ==> scenarios == old(scenarios)
      ensures !writeFails ==> scenarios == Saved(Upsert(old(GetScenarios()), scenario))
      ensures !writeFails ==> scenario in GetScenarios()
    {
      var list := GetScenarios();
      var existingIndex := FindIndex(list, scenario.id);
      if existingIndex >= 0 {
        list := list[existingIndex := scenario];
      } else {
        list := list + [scenario];
      }
      if !writeFails {
        scenarios := Saved(list);
        UpsertContents(old(GetScenarios()), scenario);
      }
    }

    /** `deleteScenario`. */
    method DeleteScenario(id: string, writeFails: bool)
      modifies this
      ensures sessions == old(sessions)
      ensures writeFails ==> scenarios == old(scenarios)
      ensures !writeFails ==> scenarios == Saved(RemoveId(old(GetScenarios()), id))
      ensures !writeFails ==> forall s :: s in GetScenarios() ==> s.id != id
    {
      var filtered := RemoveId(GetScenarios(), id);
      if !writeFails {
        scenarios := Saved(filtered);
      }
    }

    /** `saveSession`: the new session goes first. */
    method SaveSession(session: Session, writeFails: bool)
      modifies this
      ensures scenarios == old(scenarios)
      ensures writeFails ==> sessions == old(sessions)
      ensures !writeFails ==> sessions == Saved([session] + old(GetSessions()))
      ensures !writeFails ==> GetSessionById(session.id) == Some(session)
    {
      var list := [session] + GetSessions();
      if !writeFails {
        sessions := Saved(list);
        NewestSessionWins(old(GetSessions()), session, session.id);
      }
    }
  }
}
