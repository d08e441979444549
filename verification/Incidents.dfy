/** The race-control log and the per-driver incident index inferred from it. */
module Incidents {
  import opened Wrappers
  import opened Collections

  datatype Message = Message(utc: string, message: string, rest: Fields)

  datatype Incident = Incident(utc: string, message: string, rest: Fields)

  /** IncidentParser.Parse: nothing, or an incident with the numbers of the drivers it names. */
  type Parser = Message -> Option<(Incident, seq<string>)>

  /** A RaceControlMessages payload: a map of messages (None where one did not decode), a list, or neither. */
  datatype Update = ByKey(entries: map<string, Option<Message>>) | Listed(items: seq<Message>) | Undecodable

  predicate Same(a: Incident, b: Incident) {
    a.utc == b.utc && a.message == b.message
  }

  predicate Occurs(s: seq<Incident>, x: Incident) {
    exists i :: 0 <= i < |s| && Same(s[i], x)
  }

  // ---- the index as a function of the log ----

  predicate NamesDriver(parse: Parser, m: Message, d: string) {
    parse(m).Some? && d in parse(m).value.1
  }

  /** The incidents of the messages that name d, in log order, once per message. */
  function Mentions(parse: Parser, log: seq<Message>, d: string): seq<Incident> {
    if log == [] then []
    else
      var n := |log| - 1;
      Mentions(parse, log[..n], d) + if NamesDriver(parse, log[n], d) then [parse(log[n]).value.0] else []
  }

  /** Later repeats of the same time and text removed. */
  function FirstOccurrences(s: seq<Incident>): seq<Incident> {
    if s == [] then []
    else
      var n := |s| - 1;
      Add(FirstOccurrences(s[..n]), s[n])
  }

  function Add(s: seq<Incident>, x: Incident): seq<Incident> {
    if Occurs(s, x) then s else s + [x]
  }

  function Index(parse: Parser, log: seq<Message>, d: string): seq<Incident> {
    FirstOccurrences(Mentions(parse, log, d))
  }

  ghost predicate IsFirst(s: seq<Incident>, i: nat)
    requires i < |s|
  {
    forall j :: 0 <= j < i ==> !Same(s[j], s[i])
  }

  ghost function FirstsBefore(s: seq<Incident>, i: nat): (n: nat)
    requires i <= |s|
    ensures n <= i
  {
    if i == 0 then 0 else FirstsBefore(s, i - 1) + if IsFirst(s, i - 1) then 1 else 0
  }

  lemma {:induction false} FirstsOfPrefix(s: seq<Incident>, x: Incident, i: nat)
    requires i <= |s|
    ensures FirstsBefore(s + [x], i) == FirstsBefore(s, i)
  {
    if i > 0 {
      FirstsOfPrefix(s, x, i - 1);
      assert forall j :: 0 <= j < i ==> (s + [x])[j] == s[j];
    }
  }

  /** Removing repeats keeps every time and text. */
  lemma {:induction false} FirstOccurrencesKeep(s: seq<Incident>, y: Incident)
    ensures Occurs(FirstOccurrences(s), y) <==> Occurs(s, y)
  {
    hide Same;
    if s != [] {
      var n := |s| - 1;
      var t, x := s[..n], s[n];
      assert s == t + [x];
      FirstOccurrencesKeep(t, x);
      FirstOccurrencesKeep(t, y);
      OccursAppend(t, x, y);
      OccursAppend(FirstOccurrences(t), x, y);
      if Occurs(t, x) && Same(x, y) { SameOccur(t, x, y); }
    }
  }

  /** The list without repeats holds exactly the first occurrences, in their order. */
  lemma {:induction false} FirstOccurrencesMeaning(s: seq<Incident>)
    ensures |FirstOccurrences(s)| == FirstsBefore(s, |s|)
    ensures forall i :: 0 <= i < |s| && IsFirst(s, i) ==>
                          FirstsBefore(s, i) < |FirstOccurrences(s)| && FirstOccurrences(s)[FirstsBefore(s, i)] == s[i]
  {
    hide Same, Occurs, IsFirst;
    if s != [] {
      var n := |s| - 1;
      var t, x := s[..n], s[n];
      assert s == t + [x];
      FirstOccurrencesMeaning(t);
      FirstOccurrencesKeep(t, x);
      FirstsOfPrefix(t, x, n);
      LastIsFirst(t, x);
      forall i | 0 <= i < n && IsFirst(s, i)
        ensures FirstsBefore(s, i) < |FirstOccurrences(t)| && FirstOccurrences(t)[FirstsBefore(s, i)] == s[i]
      {
        FirstsOfPrefix(t, x, i);
        FirstInPrefix(t, x, i);
      }
    }
  }

  lemma FirstInPrefix(t: seq<Incident>, x: Incident, i: nat)
    requires i < |t|
    ensures IsFirst(t + [x], i) <==> IsFirst(t, i)
  {
    assert forall j :: 0 <= j <= i ==> (t + [x])[j] == t[j];
  }

  lemma LastIsFirst(t: seq<Incident>, x: Incident)
    ensures IsFirst(t + [x], |t|) <==> !Occurs(t, x)
  {
    hide Same;
    assert (t + [x])[|t|] == x;
    assert forall j :: 0 <= j < |t| ==> (t + [x])[j] == t[j];
  }

  lemma OccursAppend(s: seq<Incident>, x: Incident, y: Incident)
    ensures Occurs(s + [x], y) <==> Occurs(s, y) || Same(x, y)
  {
    hide Same;
    var all := s + [x];
    assert all[|s|] == x;
    if Occurs(s, y) {
      var i :| 0 <= i < |s| && Same(s[i], y);
      assert all[i] == s[i];
    }
  }

  lemma SameAsItself(x: Incident)
    ensures Same(x, x)
  {
  }

  lemma SameOccur(s: seq<Incident>, x: Incident, y: Incident)
    requires Occurs(s, x) && Same(x, y)
    ensures Occurs(s, y)
  {
  }

  /** A message more in the log. */
  lemma IndexAppend(parse: Parser, log: seq<Message>, m: Message, d: string)
    ensures Index(parse, log + [m], d)
            == if NamesDriver(parse, m, d) then Add(Index(parse, log, d), parse(m).value.0) else Index(parse, log, d)
  {
    hide Add;
    assert (log + [m])[..|log|] == log;
    var mentions := Mentions(parse, log, d);
    if NamesDriver(parse, m, d) {
      assert (mentions + [parse(m).value.0])[..|mentions|] == mentions;
    } else {
      assert mentions + [] == mentions;
    }
  }

  predicate Holds(s: seq<Incident>, utc: string, text: string) {
    exists i :: 0 <= i < |s| && s[i].utc == utc && s[i].message == text
  }

  lemma HoldsOneMore(s: seq<Incident>, x: Incident, utc: string, text: string)
    ensures Holds(s + [x], utc, text) <==> Holds(s, utc, text) || (x.utc == utc && x.message == text)
  {
    var all := s + [x];
    assert all[|s|] == x;
    if Holds(s, utc, text) {
      var i :| 0 <= i < |s| && s[i].utc == utc && s[i].message == text;
      assert all[i] == s[i];
    }
  }

  ghost predicate SomeIncidentAt(parse: Parser, log: seq<Message>, d: string, utc: string, text: string) {
    exists m :: m in log && IncidentAt(parse, m, d, utc, text)
  }

  lemma {:induction false} MentionedBy(parse: Parser, log: seq<Message>, d: string, utc: string, text: string)
    ensures Holds(Mentions(parse, log, d), utc, text) <==> SomeIncidentAt(parse, log, d, utc, text)
  {
    hide Holds, SomeIncidentAt;
    if log == [] {
      NothingHeld(parse, d, utc, text);
    } else {
      var front, m := log[..|log| - 1], log[|log| - 1];
      assert log == front + [m];
      MentionedBy(parse, front, d, utc, text);
      SomeOneMore(parse, front, m, d, utc, text);
      if NamesDriver(parse, m, d) {
        HoldsOneMore(Mentions(parse, front, d), parse(m).value.0, utc, text);
      } else {
        assert Mentions(parse, front, d) + [] == Mentions(parse, front, d);
      }
    }
  }

  lemma SomeOneMore(parse: Parser, front: seq<Message>, m: Message, d: string, utc: string, text: string)
    ensures SomeIncidentAt(parse, front + [m], d, utc, text)
            <==> SomeIncidentAt(parse, front, d, utc, text) || IncidentAt(parse, m, d, utc, text)
  {
    hide IncidentAt;
    assert forall n :: n in front + [m] <==> n in front || n == m;
  }

  lemma NothingHeld(parse: Parser, d: string, utc: string, text: string)
    ensures !Holds([], utc, text) && !SomeIncidentAt(parse, [], d, utc, text)
  {
  }

  /** The message makes an incident of that time and text for the driver. */
  predicate IncidentAt(parse: Parser, m: Message, d: string, utc: string, text: string) {
    && parse(m).Some? && d in parse(m).value.1
    && parse(m).value.0.utc == utc && parse(m).value.0.message == text
  }

  /** What one more message does to the index: its incident is appended for a driver it names, unless the log already has
      a message that makes an incident of the same time and the same text for that driver; nothing else changes. With
      the empty index of the empty log this determines the index of every log. */
  lemma IndexOfOneMore(parse: Parser, log: seq<Message>, m: Message, d: string)
    ensures Index(parse, [], d) == []
    ensures var known := Index(parse, log, d);
            if parse(m).None? || d !in parse(m).value.1 then Index(parse, log + [m], d) == known
            else
              var x := parse(m).value.0;
              if SomeIncidentAt(parse, log, d, x.utc, x.message) then Index(parse, log + [m], d) == known
              else Index(parse, log + [m], d) == known + [x]
  {
    hide Index, Mentions, Holds, Occurs, SomeIncidentAt;
    NothingIndexed(parse, d);
    IndexAppend(parse, log, m, d);
    if NamesDriver(parse, m, d) {
      var x := parse(m).value.0;
      MentionedBy(parse, log, d, x.utc, x.message);
      IndexedIff(parse, log, d, x);
    }
  }

  lemma NothingIndexed(parse: Parser, d: string)
    ensures Index(parse, [], d) == []
  {
  }

  lemma IndexedIff(parse: Parser, log: seq<Message>, d: string, x: Incident)
    ensures Occurs(Index(parse, log, d), x) <==> Holds(Mentions(parse, log, d), x.utc, x.message)
  {
    FirstOccurrencesKeep(Mentions(parse, log, d), x);
  }

  lemma {:induction false} LoggedIsIndexed(parse: Parser, log: seq<Message>, m: Message, d: string)
    requires m in log && NamesDriver(parse, m, d)
    ensures Occurs(Mentions(parse, log, d), parse(m).value.0)
  {
    hide Occurs, Same;
    var n := |log| - 1;
    var front := Mentions(parse, log[..n], d);
    if log[n] == m {
      OccursAppend(front, parse(m).value.0, parse(m).value.0);
      SameAsItself(parse(m).value.0);
    } else {
      LoggedIsIndexed(parse, log[..n], m, d);
      if NamesDriver(parse, log[n], d) {
        OccursAppend(front, parse(log[n]).value.0, parse(m).value.0);
      } else {
        assert front + [] == front;
      }
    }
  }

  /** What a driver's incidents become when messages are processed one after the other. */
  function After(parse: Parser, known: seq<Incident>, added: seq<Message>, d: string): seq<Incident> {
    if added == [] then known
    else
      var n := |added| - 1;
      var mid := After(parse, known, added[..n], d);
      if NamesDriver(parse, added[n], d) then Add(mid, parse(added[n]).value.0) else mid
  }

  lemma {:induction false} IndexAfter(parse: Parser, log: seq<Message>, added: seq<Message>, d: string)
    ensures Index(parse, log + added, d) == After(parse, Index(parse, log, d), added, d)
  {
    hide Index, Mentions;
    if added == [] {
      assert log + added == log;
    } else {
      var n := |added| - 1;
      IndexAfter(parse, log, added[..n], d);
      assert log + added == (log + added[..n]) + [added[n]];
      IndexAppend(parse, log + added[..n], added[n], d);
    }
  }

  /** Known incidents stay where they are. */
  lemma {:induction false} AfterExtends(parse: Parser, known: seq<Incident>, added: seq<Message>, d: string)
    ensures known <= After(parse, known, added, d)
  {
    if added != [] {
      AfterExtends(parse, known, added[..|added| - 1], d);
    }
  }

  /** Messages that the log has already leave every driver's index as it is, though the log grows. */
  lemma {:induction false} ReapplyingLeavesIndex(parse: Parser, log: seq<Message>, again: seq<Message>, d: string)
    requires forall m :: m in again ==> m in log
    ensures Index(parse, log + again, d) == Index(parse, log, d)
  {
    hide Index, Mentions, Occurs;
    if again == [] {
      assert log + again == log;
    } else {
      var n := |again| - 1;
      ReapplyingLeavesIndex(parse, log, again[..n], d);
      assert log + again == (log + again[..n]) + [again[n]];
      IndexAppend(parse, log + again[..n], again[n], d);
      if NamesDriver(parse, again[n], d) {
        LoggedIsIndexed(parse, log, again[n], d);
        IndexedOccurs(parse, log, d, parse(again[n]).value.0);
      }
    }
  }

  lemma IndexedOccurs(parse: Parser, log: seq<Message>, d: string, x: Incident)
    requires Occurs(Mentions(parse, log, d), x)
    ensures Occurs(Index(parse, log, d), x)
  {
    FirstOccurrencesKeep(Mentions(parse, log, d), x);
  }

  // ---- the log and the index that the feed updates in place ----

  function EntryOf(incidents: map<string, seq<Incident>>, d: string): seq<Incident> {
    if d in incidents then incidents[d] else []
  }

  /** The messages an update appends, in the order the range visited them. */
  ghost predicate Appends(u: Update, added: seq<Message>) {
    match u
    case Listed(items) => added == items
    case Undecodable => added == []
    case ByKey(entries) => exists keys :: VisitsAll(entries, keys) && added == Visited(entries, keys)
  }

  ghost predicate VisitsAll(entries: map<string, Option<Message>>, keys: seq<string>) {
    && (forall i, j :: 0 <= i < j < |keys| ==> keys[i] != keys[j])
    && (forall k :: k in keys <==> k in entries)
  }

  ghost function Visited(entries: map<string, Option<Message>>, keys: seq<string>): seq<Message>
    requires forall k :: k in keys ==> k in entries
  {
    if keys == [] then []
    else
      var n := |keys| - 1;
      Visited(entries, keys[..n]) + if entries[keys[n]].Some? then [entries[keys[n]].value] else []
  }

  lemma {:induction false} VisitedOnes(entries: map<string, Option<Message>>, keys: seq<string>, m: Message)
    requires forall k :: k in keys ==> k in entries
    ensures m in Visited(entries, keys) <==> exists k :: k in keys && entries[k] == Some(m)
  {
    if keys != [] {
      var n := |keys| - 1;
      VisitedOnes(entries, keys[..n], m);
      assert forall k :: k in keys <==> k in keys[..n] || k == keys[n];
    }
  }

  /** The keys of a map update whose value decodes to the message. */
  function KeysWith(entries: map<string, Option<Message>>, m: Message): set<string> {
    set k | k in entries && entries[k] == Some(m)
  }

  lemma {:induction false} VisitedTimes(entries: map<string, Option<Message>>, keys: seq<string>, m: Message)
    requires forall k :: k in keys ==> k in entries
    requires forall i, j :: 0 <= i < j < |keys| ==> keys[i] != keys[j]
    ensures multiset(Visited(entries, keys))[m] == |KeysAmong(entries, keys, m)|
  {
    hide KeysAmong;
    if keys == [] {
      NoKeysAmong(entries, m);
    } else {
      var front, k := keys[..|keys| - 1], keys[|keys| - 1];
      VisitedTimes(entries, front, m);
      assert keys == front + [k] && k !in front;
      OneMoreAmong(entries, front, k, m);
    }
  }

  function KeysAmong(entries: map<string, Option<Message>>, keys: seq<string>, m: Message): set<string>
    requires forall k :: k in keys ==> k in entries
  {
    set k | k in keys && entries[k] == Some(m)
  }

  lemma NoKeysAmong(entries: map<string, Option<Message>>, m: Message)
    ensures KeysAmong(entries, [], m) == {}
  {
  }

  lemma OneMoreAmong(entries: map<string, Option<Message>>, front: seq<string>, k: string, m: Message)
    requires (forall x :: x in front ==> x in entries) && k in entries && k !in front
    ensures forall x :: x in front + [k] ==> x in entries
    ensures |KeysAmong(entries, front + [k], m)| == |KeysAmong(entries, front, m)| + if entries[k] == Some(m) then 1 else 0
  {
    assert KeysAmong(entries, front + [k], m) == KeysAmong(entries, front, m) + if entries[k] == Some(m) then {k} else {};
  }

  /** How often an update appends a message: a map once for each key whose value decodes to it, a list as often as it
      holds it, in its order, and a payload that is neither not at all. */
  lemma AppendedTimes(u: Update, added: seq<Message>, m: Message)
    requires Appends(u, added)
    ensures u.ByKey? ==> multiset(added)[m] == |KeysWith(u.entries, m)|
    ensures u.Listed? ==> |added| == |u.items| && forall i :: 0 <= i < |added| ==> added[i] == u.items[i]
    ensures u.Undecodable? ==> |added| == 0
  {
    if u.ByKey? {
      var keys :| VisitsAll(u.entries, keys) && added == Visited(u.entries, keys);
      VisitedTimes(u.entries, keys, m);
      assert KeysWith(u.entries, m) == KeysAmong(u.entries, keys, m);
    }
  }

  /** Whatever the order of the range, an update appends the same messages. */
  lemma AppendsSameMessages(u: Update, added: seq<Message>, again: seq<Message>)
    requires Appends(u, added) && Appends(u, again)
    ensures forall m :: m in again <==> m in added
  {
    if u.ByKey? {
      var k1 :| VisitsAll(u.entries, k1) && added == Visited(u.entries, k1);
      var k2 :| VisitsAll(u.entries, k2) && again == Visited(u.entries, k2);
      forall m
        ensures m in again <==> m in added
      {
        VisitedOnes(u.entries, k1, m);
        VisitedOnes(u.entries, k2, m);
      }
    }
  }

  class RaceControl {
    const parse: Parser
    /** RaceControlMessages.Messages and IncidentHistoryMap. */
    var messages: seq<Message>
    var incidents: map<string, seq<Incident>>
    /** How many messages came with the snapshot; those are not searched for incidents. */
    ghost var base: nat

    /** The messages appended since the snapshot. */
    ghost function Since(): seq<Message>
      requires base <= |messages|
      reads this
    {
      messages[base..]
    }

    /** The index agrees with the log. */
    ghost predicate Valid()
      reads this
    {
      base <= |messages| && forall d :: EntryOf(incidents, d) == Index(parse, Since(), d)
    }

    constructor (parse: Parser, snapshot: seq<Message>)
      ensures Valid() && messages == snapshot && incidents == map[] && Since() == []
      ensures this.parse == parse
    {
      this.parse := parse;
      messages, incidents, base := snapshot, map[], |snapshot|;
    }

    /** The entry of one driver, unless it is known already. */
    method AddIncident(driver: string, incident: Incident)
      modifies this`incidents
      ensures forall d :: EntryOf(incidents, d) == if d == driver then Add(EntryOf(old(incidents), d), incident)
                                                   else EntryOf(old(incidents), d)
    {
      hide Occurs;
      var known := EntryOf(incidents, driver);
      var found := FindSame(known, incident);
      if !found {
        incidents := incidents[driver := known + [incident]];
      }
    }

    /** processMessage: the log entry, and the incident for each driver it names unless it is known already. */
    method Process(m: Message) returns (announced: Option<Incident>)
      requires Valid()
      modifies this
      ensures Valid() && base == old(base) && messages == old(messages) + [m]
      ensures announced == if parse(m).Some? && parse(m).value.1 != [] then Some(parse(m).value.0) else None
    {
      hide Index, Add;
      ghost var log := Since();
      messages := messages + [m];
      assert Since() == log + [m];
      forall d
        ensures Index(parse, log + [m], d)
                == if NamesDriver(parse, m, d) then Add(Index(parse, log, d), parse(m).value.0) else Index(parse, log, d)
      {
        IndexAppend(parse, log, m, d);
      }
      var parsed := parse(m);
      if parsed.None? || |parsed.value.1| == 0 {
        return None;
      }
      var incident, numbers := parsed.value.0, parsed.value.1;
      for k := 0 to |numbers|
        invariant base == old(base) && messages == old(messages) + [m]
        invariant forall d :: EntryOf(incidents, d) == if d in numbers[..k] then Add(Index(parse, log, d), incident)
                                                       else Index(parse, log, d)
      {
        AddTwice(Index(parse, log, numbers[k]), incident);
        AddIncident(numbers[k], incident);
        assert numbers[..k + 1] == numbers[..k] + [numbers[k]];
      }
      assert numbers[..|numbers|] == numbers;
      return Some(incident);
    }

    /** updateRaceControlMessages. */
    method Apply(u: Update) returns (ghost added: seq<Message>)
      requires Valid()
      modifies this
      ensures Valid() && base == old(base)
      ensures messages == old(messages) + added && Appends(u, added)
    {
      added := [];
      match u {
        case Undecodable =>
        case Listed(items) =>
          for i := 0 to |items|
            invariant Valid() && base == old(base)
            invariant messages == old(messages) + items[..i]
          {
            var _ := Process(items[i]);
          }
          added := items;
          assert items[..|items|] == items;
        case ByKey(entries) =>
          var todo := entries.Keys;
          ghost var keys := [];
          while todo != {}
            invariant todo <= entries.Keys
            invariant Valid() && base == old(base)
            invariant VisitsAll(entries - todo, keys)
            invariant forall k :: k in keys ==> k in entries && k !in todo
            invariant added == Visited(entries, keys)
            invariant messages == old(messages) + added
            decreases todo
          {
            var k :| k in todo;
            assert k !in keys;
            assert (keys + [k])[..|keys|] == keys;
            if entries[k].Some? {
              var _ := Process(entries[k].value);
              added := added + [entries[k].value];
            }
            keys := keys + [k];
            todo := todo - {k};
          }
          assert entries - {} == entries;
      }
    }
  }

  /** The search for a known incident. */
  method FindSame(history: seq<Incident>, x: Incident) returns (found: bool)
    ensures found == Occurs(history, x)
  {
    found := false;
    for i := 0 to |history|
      invariant found == Occurs(history[..i], x)
    {
      assert history[..i + 1] == history[..i] + [history[i]];
      OccursAppend(history[..i], history[i], x);
      if history[i].utc == x.utc && history[i].message == x.message {
        found := true;
        break;
      }
    }
    assert history[..|history|] == history;
  }

  lemma AddTwice(s: seq<Incident>, x: Incident)
    ensures Occurs(Add(s, x), x) && Add(Add(s, x), x) == Add(s, x)
  {
    OccursAppend(s, x, x);
  }
}
