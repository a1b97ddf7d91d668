/**
 Grounding (`backend/app/rag/grounding.py`): which retrieved hits are eligible, which of them a
 newer version of the same policy supersedes, and which are cited.
 */
module Grounding {
  import opened Sequences
  import opened Wrappers
  import Text

  datatype Hit = Hit(
    chunkId: string, title: string, content: string, score: real, official: bool,
    documentNumber: Option<string>, policyKey: Option<string>, policyStatus: Option<string>,
    published: Option<int>)

  /** The service's settings; `lower` and `covers` stand for `str.lower` and `_overlap`. */
  datatype Service = Service(
    minimumHits: int, minimumScore: real, requireOfficial: bool, refuseOnConflict: bool,
    lower: string -> string, covers: (string, string) -> bool)

  datatype Reason = InsufficientEvidence | OfficialSourceRequired | QuestionNotCovered | ConflictingEvidence

  /** `newer_policy_available:<key>:<outdated>:<replacement>` */
  datatype Message = Message(key: string, outdated: string, replacement: string)

  datatype Decision = Decision(
    sufficient: bool, reasons: seq<Reason>, conflicts: seq<string>, outdated: seq<Message>, cited: seq<Hit>)

  /** The first of the optional texts that is not empty, else the last resort. */
  function FirstNonEmpty(a: Option<string>, b: Option<string>, last: string): string {
    if a.Some? && a.value != "" then a.value else if b.Some? && b.value != "" then b.value else last
  }

  /** The policy a hit belongs to. */
  function GroupKey(hit: Hit): string {
    Text.Strip(FirstNonEmpty(hit.documentNumber, hit.policyKey, hit.title))
  }

  predicate Dated(hit: Hit) {
    GroupKey(hit) != "" && hit.published.Some?
  }

  /** A newer hit of the same policy is among the hits. */
  ghost predicate Superseded(hit: Hit, hits: seq<Hit>) {
    && Dated(hit)
    && exists g :: g in hits && Dated(g) && GroupKey(g) == GroupKey(hit) && g.published.value > hit.published.value
  }

  /**
   Hits with the same document number are of one policy whatever their keys and titles; without numbers
   the policy key decides, and without either the title.
   */
  lemma SamePolicy(g: Hit, h: Hit)
    ensures Given(g.documentNumber) && g.documentNumber == h.documentNumber ==> GroupKey(g) == GroupKey(h)
    ensures !Given(g.documentNumber) && !Given(h.documentNumber) && Given(g.policyKey) && g.policyKey == h.policyKey ==>
      GroupKey(g) == GroupKey(h)
    ensures Given(g.documentNumber) ==> GroupKey(g) == Text.Strip(g.documentNumber.value)
    ensures !Given(g.documentNumber) && Given(g.policyKey) ==> GroupKey(g) == Text.Strip(g.policyKey.value)
    ensures !Given(g.documentNumber) && !Given(g.policyKey) ==> GroupKey(g) == Text.Strip(g.title)
  {
    hide Text.Strip;
  }

  predicate Given(text: Option<string>) {
    text.Some? && text.value != ""
  }

  // ---------------------------------------------------------------- outdated hits

  function Entries(hits: seq<Hit>, key: string): seq<Hit> {
    if hits == [] then []
    else (if Dated(hits[0]) && GroupKey(hits[0]) == key then [hits[0]] else []) + Entries(hits[1..], key)
  }

  /** The policies of the dated hits, in the order in which they appear. */
  function Keys(hits: seq<Hit>): (keys: seq<string>) {
    if hits == [] then []
    else
      var n := |hits| - 1;
      var keys := Keys(hits[..n]);
      if Dated(hits[n]) && GroupKey(hits[n]) !in keys then keys + [GroupKey(hits[n])] else keys
  }

  function NewestDate(entries: seq<Hit>): int
    requires entries != [] && forall e | e in entries :: e.published.Some?
  {
    if |entries| == 1 then entries[0].published.value
    else
      assert forall e | e in entries[1..] :: e in entries;
      var later := NewestDate(entries[1..]);
      if entries[0].published.value > later then entries[0].published.value else later
  }

  lemma {:induction false} NewestDateIsMax(entries: seq<Hit>)
    requires entries != [] && forall e | e in entries :: e.published.Some?
    ensures forall e | e in entries :: e.published.value <= NewestDate(entries)
    ensures exists e :: e in entries && e.published.value == NewestDate(entries)
  {
    if |entries| == 1 {
      assert entries[0] in entries;
    } else {
      assert entries == [entries[0]] + entries[1..];
      NewestDateIsMax(entries[1..]);
      if entries[0].published.value <= NewestDate(entries[1..]) {
        var e :| e in entries[1..] && e.published.value == NewestDate(entries[1..]);
        assert e in entries;
      } else {
        assert entries[0] in entries;
      }
    }
  }

  /** The order of strings, character by character. */
  predicate Less(a: string, b: string) {
    if b == "" then false
    else if a == "" then true
    else a[0] < b[0] || (a[0] == b[0] && Less(a[1..], b[1..]))
  }

  lemma {:induction false} LessTransitive(a: string, b: string, c: string)
    requires Less(a, b) && Less(b, c)
    ensures Less(a, c)
  {
    if a != "" && a[0] == b[0] == c[0] {
      LessTransitive(a[1..], b[1..], c[1..]);
    }
  }

  /** The least chunk id among the entries of a date, `None` when there is none. */
  function LeastId(entries: seq<Hit>, date: int): Option<string> {
    if entries == [] then None
    else
      var later := LeastId(entries[1..], date);
      if entries[0].published != Some(date) then later
      else if later.Some? && Less(later.value, entries[0].chunkId) then later
      else Some(entries[0].chunkId)
  }

  lemma {:induction false} LeastIdIsLeast(entries: seq<Hit>, date: int)
    ensures LeastId(entries, date).Some? <==> exists e :: e in entries && e.published == Some(date)
    ensures LeastId(entries, date).Some? ==>
      && (exists e :: e in entries && e.published == Some(date) && e.chunkId == LeastId(entries, date).value)
      && (forall e | e in entries && e.published == Some(date) :: !Less(e.chunkId, LeastId(entries, date).value))
  {
    if entries != [] {
      var head, tail := entries[0], entries[1..];
      assert entries == [head] + tail;
      LeastIdIsLeast(tail, date);
      var later := LeastId(tail, date);
      assert forall e | e in tail :: e in entries;
      if head.published == Some(date) {
        assert head in entries;
        LessIrreflexive(head.chunkId);
        if later.Some? {
          if Less(later.value, head.chunkId) {
            if Less(head.chunkId, later.value) { LessTransitive(head.chunkId, later.value, head.chunkId); }
          } else {
            forall e | e in tail && e.published == Some(date) ensures !Less(e.chunkId, head.chunkId) {
              NotLessThrough(e.chunkId, head.chunkId, later.value);
            }
          }
        }
      }
    }
  }

  lemma LessIrreflexive(a: string)
    ensures !Less(a, a)
  {
  }

  /** Of two strings neither of which comes before the other, both are the same. */
  lemma {:induction false} LessTotal(a: string, b: string)
    requires !Less(a, b) && !Less(b, a)
    ensures a == b
  {
    if a != "" {
      LessTotal(a[1..], b[1..]);
      assert a == [a[0]] + a[1..] && b == [b[0]] + b[1..];
    }
  }

  lemma NotLessThrough(e: string, head: string, least: string)
    requires !Less(e, least) && !Less(least, head)
    ensures !Less(e, head)
  {
    if Less(e, head) {
      if Less(head, least) { LessTransitive(e, head, least); } else { LessTotal(head, least); }
    }
  }

  lemma {:induction false} EntriesMembers(hits: seq<Hit>, key: string)
    ensures forall h :: h in Entries(hits, key) <==> h in hits && Dated(h) && GroupKey(h) == key
  {
    hide Dated, GroupKey;
    if hits != [] {
      EntriesMembers(hits[1..], key);
      assert hits == [hits[0]] + hits[1..];
    }
  }

  lemma {:induction false} KeysMembers(hits: seq<Hit>)
    ensures forall k :: k in Keys(hits) <==> exists h :: h in hits && Dated(h) && GroupKey(h) == k
  {
    hide Dated, GroupKey;
    if hits != [] {
      var n := |hits| - 1;
      KeysMembers(hits[..n]);
      assert hits == hits[..n] + [hits[n]];
      forall k ensures k in Keys(hits) <==> exists h :: h in hits && Dated(h) && GroupKey(h) == k {
        if Dated(hits[n]) && GroupKey(hits[n]) == k { assert hits[n] in hits; }
      }
    }
  }

  /** The messages for the entries older than the newest of their group. */
  function Older(key: string, entries: seq<Hit>, date: int, replacement: string): seq<Message> {
    if entries == [] then []
    else
      (if entries[0].published.Some? && entries[0].published.value < date
       then [Message(key, entries[0].chunkId, replacement)] else [])
      + Older(key, entries[1..], date, replacement)
  }

  function GroupMessages(hits: seq<Hit>, key: string): seq<Message> {
    EntriesMembers(hits, key);
    var entries := Entries(hits, key);
    if entries == [] then []
    else
      var date := NewestDate(entries);
      var least := LeastId(entries, date);
      Older(key, entries, date, if least.Some? then least.value else "")
  }

  function AllMessages(hits: seq<Hit>, keys: seq<string>): seq<Message> {
    if keys == [] then [] else GroupMessages(hits, keys[0]) + AllMessages(hits, keys[1..])
  }

  function OutdatedMessages(hits: seq<Hit>): seq<Message> {
    AllMessages(hits, Keys(hits))
  }

  function OutdatedIds(messages: seq<Message>): set<string> {
    set m | m in messages :: m.outdated
  }

  lemma {:induction false} EntriesLast(hits: seq<Hit>, hit: Hit, key: string)
    ensures Entries(hits + [hit], key) ==
      Entries(hits, key) + (if Dated(hit) && GroupKey(hit) == key then [hit] else [])
  {
    hide Dated, GroupKey;
    if hits == [] {
      assert [hit][1..] == [] && hits + [hit] == [hit];
    } else {
      var first := if Dated(hits[0]) && GroupKey(hits[0]) == key then [hits[0]] else [];
      var last := if Dated(hit) && GroupKey(hit) == key then [hit] else [];
      EntriesLast(hits[1..], hit, key);
      assert (hits + [hit])[1..] == hits[1..] + [hit];
      assert first + (Entries(hits[1..], key) + last) == first + Entries(hits[1..], key) + last;
    }
  }

  /** The first loop: the dated hits of each policy, with the policies in order of appearance. */
  method GroupByPolicy(hits: seq<Hit>) returns (keys: seq<string>, grouped: map<string, seq<Hit>>)
    ensures keys == Keys(hits)
    ensures forall k :: k in grouped <==> k in keys
    ensures forall k | k in grouped :: grouped[k] == Entries(hits, k)
  {
    hide Dated, GroupKey, Entries;
    keys, grouped := [], map[];
    for i := 0 to |hits|
      invariant keys == Keys(hits[..i])
      invariant forall k :: k in grouped <==> k in keys
      invariant forall k | k in grouped :: grouped[k] == Entries(hits[..i], k)
    {
      var hit := hits[i];
      var key := GroupKey(hit);
      assert hits[..i + 1] == hits[..i] + [hit];
      assert hits[..i + 1][..i] == hits[..i];
      forall k
        ensures Entries(hits[..i + 1], k) == Entries(hits[..i], k) + (if Dated(hit) && key == k then [hit] else [])
      {
        EntriesLast(hits[..i], hit, k);
      }
      if Dated(hit) {
        if key in grouped {
          grouped := grouped[key := grouped[key] + [hit]];
        } else {
          NoEntriesYet(hits[..i], key);
          grouped := grouped[key := [hit]];
          keys := keys + [key];
        }
      }
    }
    assert hits[..|hits|] == hits;
  }

  /** The second loop's body: every entry of a policy that is older than its newest. */
  method ReportOlder(key: string, entries: seq<Hit>, newestDate: int, newest: string)
    returns (messages: seq<Message>, outdatedIds: set<string>)
    requires forall e | e in entries :: e.published.Some?
    ensures messages == Older(key, entries, newestDate, newest)
    ensures outdatedIds == OutdatedIds(messages)
  {
    hide Older;
    messages, outdatedIds := [], {};
    NoneOlder(key, newestDate, newest);
    assert entries[0..] == entries;
    for j := 0 to |entries|
      invariant messages + Older(key, entries[j..], newestDate, newest) == Older(key, entries, newestDate, newest)
      invariant outdatedIds == OutdatedIds(messages)
    {
      OlderCons(key, entries[j], entries[j + 1..], newestDate, newest, messages);
      assert entries[j..] == [entries[j]] + entries[j + 1..];
      if entries[j].published.value < newestDate {
        outdatedIds := outdatedIds + {entries[j].chunkId};
        messages := messages + [Message(key, entries[j].chunkId, newest)];
      }
    }
    assert entries[|entries|..] == [] && messages + [] == messages;
  }

  lemma NoneOlder(key: string, date: int, replacement: string)
    ensures Older(key, [], date, replacement) == []
  {
  }

  /** Groups the dated hits by policy and reports every one that is older than its group's newest. */
  method DetectOutdated(hits: seq<Hit>) returns (messages: seq<Message>, outdatedIds: set<string>)
    ensures messages == OutdatedMessages(hits)
    ensures outdatedIds == OutdatedIds(messages)
  {
    hide Dated, GroupKey, Keys, Entries, NewestDate, LeastId, GroupMessages, AllMessages, Older;
    var keys, grouped := GroupByPolicy(hits);
    messages, outdatedIds := [], {};
    ghost var goal := AllMessages(hits, keys);
    assert keys[0..] == keys && [] + goal == goal;
    for i := 0 to |keys|
      invariant messages + AllMessages(hits, keys[i..]) == goal
      invariant outdatedIds == OutdatedIds(messages)
    {
      var key := keys[i];
      var entries := grouped[key];
      GroupNotEmpty(hits, key);
      assert keys[i..] == [key] + keys[i + 1..];
      AllMessagesCons(hits, key, keys[i + 1..], messages);
      var newestDate := NewestDate(entries);
      NewestDateIsMax(entries);
      LeastIdIsLeast(entries, newestDate);
      var newest := LeastId(entries, newestDate).value;
      var reported, ids := ReportOlder(key, entries, newestDate, newest);
      GroupMessagesAre(hits, key, newestDate, newest);
      messages, outdatedIds := messages + reported, outdatedIds + ids;
    }
    assert keys[|keys|..] == [] && messages + [] == messages;
    NoMessages(hits);
  }

  lemma NoEntriesYet(hits: seq<Hit>, key: string)
    requires key !in Keys(hits)
    ensures Entries(hits, key) == []
  {
    hide Dated, GroupKey;
    KeysMembers(hits);
    EntriesMembers(hits, key);
    HasMember(Entries(hits, key));
  }

  lemma GroupNotEmpty(hits: seq<Hit>, key: string)
    requires key in Keys(hits)
    ensures Entries(hits, key) != []
    ensures forall e | e in Entries(hits, key) :: e.published.Some?
  {
    KeysMembers(hits);
    EntriesMembers(hits, key);
    var h :| h in hits && Dated(h) && GroupKey(h) == key;
    assert h in Entries(hits, key);
  }

  lemma AllMessagesCons(hits: seq<Hit>, key: string, keys: seq<string>, before: seq<Message>)
    ensures before + AllMessages(hits, [key] + keys) == (before + GroupMessages(hits, key)) + AllMessages(hits, keys)
  {
    hide GroupMessages;
    assert ([key] + keys)[1..] == keys;
  }

  lemma OlderCons(key: string, hit: Hit, rest: seq<Hit>, date: int, replacement: string, before: seq<Message>)
    ensures before + Older(key, [hit] + rest, date, replacement) ==
      (if hit.published.Some? && hit.published.value < date
       then before + [Message(key, hit.chunkId, replacement)] else before)
      + Older(key, rest, date, replacement)
  {
    assert ([hit] + rest)[1..] == rest;
  }

  lemma GroupMessagesAre(hits: seq<Hit>, key: string, date: int, replacement: string)
    requires Entries(hits, key) != [] && forall e | e in Entries(hits, key) :: e.published.Some?
    requires date == NewestDate(Entries(hits, key)) && LeastId(Entries(hits, key), date) == Some(replacement)
    ensures GroupMessages(hits, key) == Older(key, Entries(hits, key), date, replacement)
  {
  }

  lemma NoMessages(hits: seq<Hit>)
    ensures AllMessages(hits, []) == []
  {
  }

  // ---------------------------------------------------------------- which hits are outdated

  lemma {:induction false} OlderMembers(key: string, entries: seq<Hit>, date: int, replacement: string)
    ensures forall m :: m in Older(key, entries, date, replacement) <==>
      exists e ::
        && e in entries && e.published.Some? && e.published.value < date
        && m == Message(key, e.chunkId, replacement)
  {
    if entries != [] {
      OlderMembers(key, entries[1..], date, replacement);
      assert entries == [entries[0]] + entries[1..];
    }
  }

  lemma {:induction false} AllMessagesMembers(hits: seq<Hit>, keys: seq<string>)
    ensures forall m :: m in AllMessages(hits, keys) <==> exists k :: k in keys && m in GroupMessages(hits, k)
  {
    hide GroupMessages;
    if keys != [] {
      AllMessagesMembers(hits, keys[1..]);
      assert keys == [keys[0]] + keys[1..];
    }
  }

  /** A dated hit that no other hit of its policy is newer than, and whose id comes first among those. */
  ghost predicate IsReplacement(r: Hit, hits: seq<Hit>, key: string) {
    && r in hits && Dated(r) && GroupKey(r) == key && !Superseded(r, hits)
    && forall g | g in hits && Dated(g) && GroupKey(g) == key && g.published == r.published ::
      !Less(g.chunkId, r.chunkId)
  }

  /** What the messages of one policy say, for the hits of that policy. */
  lemma GroupMessagesSay(hits: seq<Hit>, key: string, m: Message)
    requires m in GroupMessages(hits, key)
    ensures m.key == key
    ensures exists h :: h in hits && GroupKey(h) == key && h.chunkId == m.outdated && Superseded(h, hits)
    ensures exists r :: IsReplacement(r, hits, key) && r.chunkId == m.replacement
  {
    hide GroupKey, Entries, NewestDate, LeastId, Older;
    EntriesMembers(hits, key);
    var entries := Entries(hits, key);
    var date := NewestDate(entries);
    NewestDateIsMax(entries);
    LeastIdIsLeast(entries, date);
    var least := LeastId(entries, date).value;
    OlderMembers(key, entries, date, least);
    var r :| r in entries && r.published == Some(date) && r.chunkId == least;
    var h :| h in entries && h.published.Some? && h.published.value < date && m == Message(key, h.chunkId, least);
    assert r in hits && GroupKey(r) == GroupKey(h);
    assert Superseded(h, hits);
    assert IsReplacement(r, hits, key) by {
      forall g | g in hits && Dated(g) && GroupKey(g) == key
        ensures g.published.value <= date && (g.published == Some(date) ==> !Less(g.chunkId, least))
      {
        assert g in entries;
      }
    }
  }

  /** A message names a superseded hit and, as its replacement, a hit that nothing supersedes. */
  lemma MessagesNameReplacements(hits: seq<Hit>, m: Message)
    requires m in OutdatedMessages(hits)
    ensures exists h :: h in hits && GroupKey(h) == m.key && h.chunkId == m.outdated && Superseded(h, hits)
    ensures exists r :: IsReplacement(r, hits, m.key) && r.chunkId == m.replacement
  {
    hide GroupMessages, GroupKey, Superseded, IsReplacement;
    AllMessagesMembers(hits, Keys(hits));
    var k :| k in Keys(hits) && m in GroupMessages(hits, k);
    GroupMessagesSay(hits, k, m);
  }

  /** Every superseded hit is reported. */
  lemma SupersededIsReported(hits: seq<Hit>, h: Hit)
    requires h in hits && Superseded(h, hits)
    ensures h.chunkId in OutdatedIds(OutdatedMessages(hits))
  {
    hide GroupKey, Entries, NewestDate, LeastId, Older, Keys, AllMessages;
    var key := GroupKey(h);
    var entries := Entries(hits, key);
    EntriesMembers(hits, key);
    assert h in entries;
    var g :| g in hits && Dated(g) && GroupKey(g) == key && g.published.value > h.published.value;
    assert g in entries;
    var date := NewestDate(entries);
    NewestDateIsMax(entries);
    LeastIdIsLeast(entries, date);
    var least := LeastId(entries, date).value;
    OlderMembers(key, entries, date, least);
    var m := Message(key, h.chunkId, least);
    assert m in GroupMessages(hits, key);
    KeysMembers(hits);
    AllMessagesMembers(hits, Keys(hits));
    assert m in OutdatedMessages(hits);
  }

  /** The outdated ids are exactly the ids of the superseded hits. */
  lemma OutdatedExactly(hits: seq<Hit>, id: string)
    ensures id in OutdatedIds(OutdatedMessages(hits)) <==>
      exists h :: h in hits && h.chunkId == id && Superseded(h, hits)
  {
    hide GroupKey, Superseded, AllMessages, Keys, OutdatedMessages;
    if id in OutdatedIds(OutdatedMessages(hits)) {
      var m :| m in OutdatedMessages(hits) && m.outdated == id;
      MessagesNameReplacements(hits, m);
    }
    if h :| h in hits && h.chunkId == id && Superseded(h, hits) {
      SupersededIsReported(hits, h);
    }
  }

  // ---------------------------------------------------------------- conflicts

  /** The policy a status is recorded under; unlike `GroupKey` an empty `policy_key` is kept. */
  function StatusKey(service: Service, hit: Hit): string {
    service.lower(Text.Strip(if hit.policyKey.Some? then hit.policyKey.value else hit.title))
  }

  function Status(service: Service, hit: Hit): string {
    service.lower(Text.Strip(if hit.policyStatus.Some? then hit.policyStatus.value else ""))
  }

  /** Statuses are recorded under the policy key where there is one, else under the title, spaces and case aside. */
  lemma StatusKeyExactly(service: Service, g: Hit, h: Hit)
    ensures g.policyKey.Some? ==> StatusKey(service, g) == service.lower(Text.Strip(g.policyKey.value))
    ensures g.policyKey.None? ==> StatusKey(service, g) == service.lower(Text.Strip(g.title))
    ensures g.policyStatus.Some? ==> Status(service, g) == service.lower(Text.Strip(g.policyStatus.value))
    ensures g.policyStatus.None? ==> Status(service, g) == service.lower("")
  {
    hide Text.Strip;
    Text.StripFixed("");
  }

  /** The statuses the hits record for a policy. */
  function Statuses(service: Service, hits: seq<Hit>, key: string): set<string> {
    set h | h in hits && StatusKey(service, h) == key && Status(service, h) != "" :: Status(service, h)
  }

  /** The policies with a status, in the order in which they appear. */
  function StatusKeys(service: Service, hits: seq<Hit>): seq<string> {
    if hits == [] then []
    else
      var n := |hits| - 1;
      var keys := StatusKeys(service, hits[..n]);
      var key := StatusKey(service, hits[n]);
      if Status(service, hits[n]) != "" && key !in keys then keys + [key] else keys
  }

  /** Those of the keys that have two statuses. */
  function Conflicting(service: Service, hits: seq<Hit>, keys: seq<string>): seq<string> {
    if keys == [] then []
    else
      var n := |keys| - 1;
      Conflicting(service, hits, keys[..n])
      + (if |Statuses(service, hits, keys[n])| > 1 then [keys[n]] else [])
  }

  function Conflicts(service: Service, hits: seq<Hit>): seq<string> {
    Conflicting(service, hits, StatusKeys(service, hits))
  }

  method DetectConflicts(service: Service, hits: seq<Hit>) returns (conflicts: seq<string>)
    ensures conflicts == Conflicts(service, hits)
  {
    hide StatusKey, Status, Conflicting;
    var keys: seq<string>, byPolicy: map<string, set<string>> := [], map[];
    for i := 0 to |hits|
      invariant keys == StatusKeys(service, hits[..i])
      invariant forall k :: k in byPolicy <==> k in keys
      invariant forall k | k in keys :: byPolicy[k] == Statuses(service, hits[..i], k)
    {
      var key, status := StatusKey(service, hits[i]), Status(service, hits[i]);
      assert hits[..i + 1] == hits[..i] + [hits[i]];
      assert hits[..i + 1][..i] == hits[..i];
      NoStatusYet(service, hits[..i], key);
      if status != "" {
        if key !in byPolicy {
          byPolicy := byPolicy[key := {}];
          keys := keys + [key];
        }
        byPolicy := byPolicy[key := byPolicy[key] + {status}];
      }
    }
    assert hits[..|hits|] == hits;
    conflicts := WithSeveral(service, hits, keys, byPolicy);
  }

  /** The keys under which more than one status is recorded. */
  method WithSeveral(service: Service, hits: seq<Hit>, keys: seq<string>, byPolicy: map<string, set<string>>)
    returns (conflicts: seq<string>)
    requires forall k | k in keys :: k in byPolicy && byPolicy[k] == Statuses(service, hits, k)
    ensures conflicts == Conflicting(service, hits, keys)
  {
    hide Statuses;
    conflicts := [];
    for i := 0 to |keys|
      invariant conflicts == Conflicting(service, hits, keys[..i])
    {
      assert keys[..i + 1][..i] == keys[..i];
      if |byPolicy[keys[i]]| > 1 {
        conflicts := conflicts + [keys[i]];
      }
    }
    assert keys[..|keys|] == keys;
  }

  lemma {:induction false} StatusKeysMembers(service: Service, hits: seq<Hit>)
    ensures forall k :: k in StatusKeys(service, hits) <==>
      exists h :: h in hits && StatusKey(service, h) == k && Status(service, h) != ""
  {
    hide StatusKey, Status;
    if hits != [] {
      var n := |hits| - 1;
      StatusKeysMembers(service, hits[..n]);
      assert hits == hits[..n] + [hits[n]];
      forall k
        ensures k in StatusKeys(service, hits) <==>
          exists h :: h in hits && StatusKey(service, h) == k && Status(service, h) != ""
      {
        if StatusKey(service, hits[n]) == k && Status(service, hits[n]) != "" { assert hits[n] in hits; }
      }
    }
  }

  lemma NoStatusYet(service: Service, hits: seq<Hit>, key: string)
    ensures key !in StatusKeys(service, hits) ==> Statuses(service, hits, key) == {}
  {
    hide StatusKey, Status;
    StatusKeysMembers(service, hits);
  }

  lemma {:induction false} ConflictingMembers(service: Service, hits: seq<Hit>, keys: seq<string>)
    ensures forall k :: k in Conflicting(service, hits, keys) <==> k in keys && |Statuses(service, hits, k)| > 1
  {
    hide Statuses;
    if keys != [] {
      var n := |keys| - 1;
      ConflictingMembers(service, hits, keys[..n]);
      assert keys == keys[..n] + [keys[n]];
    }
  }

  /** A set has two members exactly when two different things are in it. */
  lemma SeveralMembers<T>(s: set<T>)
    ensures |s| > 1 <==> exists x, y :: x in s && y in s && x != y
  {
    if |s| > 1 {
      var x :| x in s;
      assert |s - {x}| >= 1;
      var y :| y in s - {x};
    }
    if x, y :| x in s && y in s && x != y {
      assert {x, y} <= s && |s - {x, y}| == |s| - 2;
    }
  }

  /** A policy is in conflict exactly when two hits record different, not blank, statuses for it. */
  lemma ConflictsExactly(service: Service, hits: seq<Hit>, key: string)
    ensures key in Conflicts(service, hits) <==>
      exists g, h :: g in hits && h in hits && StatusKey(service, g) == key && StatusKey(service, h) == key
        && Status(service, g) != "" && Status(service, h) != "" && Status(service, g) != Status(service, h)
  {
    hide StatusKey, Status, StatusKeys, Conflicting;
    var statuses := Statuses(service, hits, key);
    ConflictingMembers(service, hits, StatusKeys(service, hits));
    StatusKeysMembers(service, hits);
    SeveralMembers(statuses);
    if g, h :| (
        && g in hits && h in hits && StatusKey(service, g) == key && StatusKey(service, h) == key
        && Status(service, g) != "" && Status(service, h) != "" && Status(service, g) != Status(service, h)) {
      assert Status(service, g) in statuses && Status(service, h) in statuses;
    }
    if |statuses| > 1 {
      var x, y :| x in statuses && y in statuses && x != y;
      var g :| g in hits && StatusKey(service, g) == key && Status(service, g) == x && x != "";
      var h :| h in hits && StatusKey(service, h) == key && Status(service, h) == y && y != "";
    }
  }

  // ---------------------------------------------------------------- the decision

  /** The hits that satisfy a condition, in order. */
  function Select(hits: seq<Hit>, keep: Hit -> bool): seq<Hit> {
    if hits == [] then []
    else Select(hits[..|hits| - 1], keep) + (if keep(hits[|hits| - 1]) then [hits[|hits| - 1]] else [])
  }

  predicate Acceptable(service: Service, hit: Hit) {
    hit.score >= service.minimumScore && Text.Strip(hit.content) != ""
  }

  predicate IsEligible(service: Service, hit: Hit) {
    Acceptable(service, hit) && (service.requireOfficial ==> hit.official)
  }

  function Eligible(service: Service, hits: seq<Hit>): seq<Hit> {
    Select(hits, h => IsEligible(service, h))
  }

  predicate Covered(service: Service, query: string, hits: seq<Hit>) {
    exists h :: h in hits && service.covers(query, h.content)
  }

  function When(holds: bool, reason: Reason): seq<Reason> {
    if holds then [reason] else []
  }

  function Reasons(service: Service, query: string, hits: seq<Hit>): seq<Reason> {
    var eligible := Eligible(service, hits);
    When(|Select(hits, h => Acceptable(service, h))| < service.minimumHits, InsufficientEvidence)
    + When(service.requireOfficial && |eligible| < service.minimumHits, OfficialSourceRequired)
    + When(eligible != [] && !Covered(service, query, eligible), QuestionNotCovered)
    + When(Conflicts(service, eligible) != [] && service.refuseOnConflict, ConflictingEvidence)
  }

  function Cited(hits: seq<Hit>): seq<Hit> {
    var ids := OutdatedIds(OutdatedMessages(hits));
    Select(hits, (h: Hit) => h.chunkId !in ids)
  }

  function Decide(service: Service, query: string, hits: seq<Hit>): Decision {
    var eligible := Eligible(service, hits);
    var reasons := Reasons(service, query, hits);
    Decision(reasons == [], reasons, Conflicts(service, eligible), OutdatedMessages(eligible), Cited(eligible))
  }

  lemma {:induction false} SelectTwice(hits: seq<Hit>, first: Hit -> bool, second: Hit -> bool, both: Hit -> bool)
    requires forall h :: both(h) == (first(h) && second(h))
    ensures Select(Select(hits, first), second) == Select(hits, both)
  {
    if hits != [] {
      var n := |hits| - 1;
      SelectTwice(hits[..n], first, second, both);
      var s := Select(hits[..n], first);
      if first(hits[n]) {
        assert (s + [hits[n]])[..|s|] == s;
      } else {
        assert s + [] == s;
      }
    }
  }

  lemma {:induction false} SelectSame(hits: seq<Hit>, one: Hit -> bool, other: Hit -> bool)
    requires forall h :: one(h) == other(h)
    ensures Select(hits, one) == Select(hits, other)
  {
    if hits != [] { SelectSame(hits[..|hits| - 1], one, other); }
  }

  lemma OfficialAreEligible(service: Service, hits: seq<Hit>)
    requires service.requireOfficial
    ensures Select(Select(hits, h => Acceptable(service, h)), (h: Hit) => h.official) == Eligible(service, hits)
  {
    hide Select, Acceptable;
    SelectTwice(hits, h => Acceptable(service, h), (h: Hit) => h.official, h => IsEligible(service, h));
  }

  lemma AcceptableAreEligible(service: Service, hits: seq<Hit>)
    requires !service.requireOfficial
    ensures Select(hits, h => Acceptable(service, h)) == Eligible(service, hits)
  {
    hide Select, Acceptable;
    SelectSame(hits, h => Acceptable(service, h), h => IsEligible(service, h));
  }

  lemma CitedAreSelected(hits: seq<Hit>, ids: set<string>)
    requires ids == OutdatedIds(OutdatedMessages(hits))
    ensures Select(hits, (h: Hit) => h.chunkId !in ids) == Cited(hits)
  {
    hide Select, OutdatedIds, OutdatedMessages;
  }

  /** A comprehension over a list: its members that satisfy the condition, in order. */
  method Comprehend(hits: seq<Hit>, keep: Hit -> bool) returns (kept: seq<Hit>)
    ensures kept == Select(hits, keep)
  {
    kept := [];
    for i := 0 to |hits|
      invariant kept == Select(hits[..i], keep)
    {
      assert hits[..i + 1][..i] == hits[..i];
      if keep(hits[i]) { kept := kept + [hits[i]]; }
    }
    assert hits[..|hits|] == hits;
  }

  /** A reason is added when its condition holds. */
  method AddWhen(reasons: seq<Reason>, holds: bool, reason: Reason) returns (more: seq<Reason>)
    ensures more == reasons + When(holds, reason)
  {
    more := reasons;
    if holds { more := more + [reason]; }
  }

  method Assess(service: Service, query: string, hits: seq<Hit>) returns (decision: Decision)
    ensures decision == Decide(service, query, hits)
  {
    hide Select, Acceptable, IsEligible, Eligible, Covered, Conflicts, OutdatedMessages, OutdatedIds, Cited, When;
    var eligible := Comprehend(hits, h => Acceptable(service, h));
    var reasons := AddWhen([], |eligible| < service.minimumHits, InsufficientEvidence);
    assert reasons == When(|eligible| < service.minimumHits, InsufficientEvidence);
    if service.requireOfficial {
      eligible := Comprehend(eligible, (h: Hit) => h.official);
      OfficialAreEligible(service, hits);
    } else {
      AcceptableAreEligible(service, hits);
    }
    reasons := AddWhen(reasons, service.requireOfficial && |eligible| < service.minimumHits, OfficialSourceRequired);
    reasons := AddWhen(reasons, eligible != [] && !Covered(service, query, eligible), QuestionNotCovered);
    var conflicts := DetectConflicts(service, eligible);
    reasons := AddWhen(reasons, conflicts != [] && service.refuseOnConflict, ConflictingEvidence);
    var outdated, outdatedIds := DetectOutdated(eligible);
    var citations := Comprehend(eligible, (h: Hit) => h.chunkId !in outdatedIds);
    CitedAreSelected(eligible, outdatedIds);
    decision := Decision(reasons == [], reasons, conflicts, outdated, citations);
  }

  // ---------------------------------------------------------------- what the decision guarantees

  lemma {:induction false} SelectMembers(hits: seq<Hit>, keep: Hit -> bool, h: Hit)
    ensures multiset(Select(hits, keep))[h] == if keep(h) then multiset(hits)[h] else 0
  {
    if hits != [] {
      var n := |hits| - 1;
      SelectMembers(hits[..n], keep, h);
      assert hits == hits[..n] + [hits[n]];
    }
  }

  lemma SelectKeeps(hits: seq<Hit>, keep: Hit -> bool, h: Hit)
    ensures h in Select(hits, keep) <==> h in hits && keep(h)
  {
    hide Select;
    SelectMembers(hits, keep, h);
    assert h in multiset(hits) <==> h in hits;
    assert h in multiset(Select(hits, keep)) <==> h in Select(hits, keep);
  }

  /** Eligible are the hits with enough score and something visible in them, official ones if that is asked for. */
  lemma EligibleExactly(service: Service, hits: seq<Hit>, h: Hit)
    ensures h in Eligible(service, hits) <==>
      && h in hits && service.minimumScore <= h.score && (exists c :: c in h.content && !Text.IsSpace(c))
      && (service.requireOfficial ==> h.official)
  {
    hide Select, Text.Strip, Text.IsSpace;
    SelectKeeps(hits, h => IsEligible(service, h), h);
    VisibleExactly(h.content);
  }

  lemma VisibleExactly(s: string)
    ensures Text.Strip(s) != "" <==> exists c :: c in s && !Text.IsSpace(c)
  {
    hide Text.Strip, Text.IsSpace;
    Text.StripNonSpace(s);
    Text.NonSpaceBlank(s);
    Text.NonSpaceBlank(Text.Strip(s));
    if Text.Strip(s) != "" {
      assert Text.Stripped(Text.Strip(s));
      assert !Text.Blank(Text.Strip(s));
      var i :| 0 <= i < |s| && !Text.IsSpace(s[i]);
      assert s[i] in s;
    }
  }

  /** A hit is cited exactly when no hit with its chunk id is superseded. */
  lemma CitedExactly(hits: seq<Hit>, h: Hit)
    ensures h in Cited(hits) <==> h in hits && forall g | g in hits && g.chunkId == h.chunkId :: !Superseded(g, hits)
  {
    hide Select, OutdatedIds, OutdatedMessages, Superseded;
    var ids := OutdatedIds(OutdatedMessages(hits));
    SelectKeeps(hits, (h: Hit) => h.chunkId !in ids, h);
    OutdatedExactly(hits, h.chunkId);
  }

  /** Hits with the same chunk id agree on their policy and date, as they do when ids are distinct. */
  ghost predicate OneVersionPerId(hits: seq<Hit>) {
    forall g, h | g in hits && h in hits && g.chunkId == h.chunkId ::
      GroupKey(g) == GroupKey(h) && g.published == h.published
  }

  /** Then exactly the superseded hits are dropped, so every newest hit of a policy is cited. */
  lemma DropsOnlySuperseded(hits: seq<Hit>, h: Hit)
    requires OneVersionPerId(hits)
    ensures h in Cited(hits) <==> h in hits && !Superseded(h, hits)
  {
    hide GroupKey, Cited;
    CitedExactly(hits, h);
  }

  /** Some hit is superseded by no other. */
  lemma {:induction false} SomeNotSuperseded(hits: seq<Hit>)
    requires hits != []
    ensures exists h :: h in hits && !Superseded(h, hits)
  {
    var first := hits[0];
    assert first in hits;
    if Superseded(first, hits) {
      var key := GroupKey(first);
      EntriesMembers(hits, key);
      var entries := Entries(hits, key);
      assert first in entries;
      NewestDateIsMax(entries);
      var e :| e in entries && e.published.value == NewestDate(entries);
      forall g | g in hits && Dated(g) && GroupKey(g) == key ensures g.published.value <= e.published.value {
        assert g in entries;
      }
    }
  }

  ghost predicate InConflict(service: Service, g: Hit, h: Hit) {
    && StatusKey(service, g) == StatusKey(service, h)
    && Status(service, g) != "" && Status(service, h) != "" && Status(service, g) != Status(service, h)
  }

  /** Each reason is given exactly when its cause is there, and a decision without reasons is sufficient. */
  lemma ReasonsExactly(service: Service, query: string, hits: seq<Hit>)
    ensures var eligible, reasons := Eligible(service, hits), Decide(service, query, hits).reasons;
      && (Decide(service, query, hits).sufficient <==> reasons == [])
      && (InsufficientEvidence in reasons <==> |Select(hits, h => Acceptable(service, h))| < service.minimumHits)
      && (OfficialSourceRequired in reasons <==> service.requireOfficial && |eligible| < service.minimumHits)
      && (QuestionNotCovered in reasons <==>
        eligible != [] && forall h | h in eligible :: !service.covers(query, h.content))
      && (ConflictingEvidence in reasons <==>
            service.refuseOnConflict && exists g, h :: g in eligible && h in eligible && InConflict(service, g, h))
  {
    hide Select, Acceptable, Conflicts, OutdatedMessages, Cited, InConflict, Eligible, Covered;
    ConflictsExist(service, Eligible(service, hits));
    CoveredExactly(service, query, Eligible(service, hits));
  }

  lemma CoveredExactly(service: Service, query: string, hits: seq<Hit>)
    ensures Covered(service, query, hits) <==> !forall h | h in hits :: !service.covers(query, h.content)
  {
  }

  lemma ConflictsExist(service: Service, hits: seq<Hit>)
    ensures Conflicts(service, hits) != [] <==> exists g, h :: g in hits && h in hits && InConflict(service, g, h)
  {
    hide Conflicts, Status, StatusKey;
    HasMember(Conflicts(service, hits));
    forall key | key in Conflicts(service, hits)
      ensures exists g, h :: g in hits && h in hits && InConflict(service, g, h)
    {
      ConflictsExactly(service, hits, key);
      var g, h :| (
        && g in hits && h in hits && StatusKey(service, g) == key && StatusKey(service, h) == key
        && Status(service, g) != "" && Status(service, h) != "" && Status(service, g) != Status(service, h));
      assert InConflict(service, g, h);
    }
    if g, h :| g in hits && h in hits && InConflict(service, g, h) {
      ConflictsExactly(service, hits, StatusKey(service, g));
    }
  }

  /** A sufficient decision has a citation. */
  lemma SufficientIsCited(service: Service, query: string, hits: seq<Hit>)
    requires service.minimumHits >= 1 && OneVersionPerId(Eligible(service, hits))
    ensures Decide(service, query, hits).sufficient ==> Decide(service, query, hits).cited != []
    ensures Decide(service, query, hits).sufficient ==>
      exists h :: h in Eligible(service, hits) && service.covers(query, h.content)
  {
    hide Select, Cited, Superseded, OneVersionPerId, Acceptable, Conflicts, OutdatedMessages;
    var eligible := Eligible(service, hits);
    if Decide(service, query, hits).sufficient {
      if !service.requireOfficial {
        SelectSame(hits, h => Acceptable(service, h), h => IsEligible(service, h));
      }
      assert eligible != [];
      SomeNotSuperseded(eligible);
      var h :| h in eligible && !Superseded(h, eligible);
      DropsOnlySuperseded(eligible, h);
    }
  }

  /** In general there is a citation exactly when some eligible hit shares its chunk id with no superseded one. */
  lemma CitesExactly(service: Service, query: string, hits: seq<Hit>)
    ensures var eligible := Eligible(service, hits);
      Decide(service, query, hits).cited != [] <==>
        exists h :: h in eligible && forall g | g in eligible && g.chunkId == h.chunkId :: !Superseded(g, eligible)
  {
    hide Cited, Eligible, Superseded, Reasons, Conflicts, OutdatedMessages;
    var eligible := Eligible(service, hits);
    HasMember(Cited(eligible));
    forall h ensures h in Cited(eligible) <==>
      h in eligible && forall g | g in eligible && g.chunkId == h.chunkId :: !Superseded(g, eligible)
    {
      CitedExactly(eligible, h);
    }
  }

  /** Every reported replacement is the id of a cited hit of the policy that the message names. */
  lemma ReplacementsAreCited(service: Service, query: string, hits: seq<Hit>, m: Message)
    requires OneVersionPerId(Eligible(service, hits)) && m in Decide(service, query, hits).outdated
    ensures exists r :: r in Decide(service, query, hits).cited && r.chunkId == m.replacement && GroupKey(r) == m.key
  {
    hide GroupKey, Select, Cited, Superseded, OneVersionPerId, Acceptable, Conflicts, OutdatedMessages;
    var eligible := Eligible(service, hits);
    MessagesNameReplacements(eligible, m);
    var r :| IsReplacement(r, eligible, m.key) && r.chunkId == m.replacement;
    DropsOnlySuperseded(eligible, r);
  }

  /**
   Without that, a decision can be sufficient and cite nothing: the same chunk id retrieved with
   an old and a new date drops both hits.
   */
  lemma SufficientWithoutCitation() returns (service: Service, query: string, hits: seq<Hit>)
    ensures service.minimumHits >= 1
    ensures Decide(service, query, hits).sufficient && Decide(service, query, hits).cited == []
  {
    hide Superseded, Conflicts, OutdatedMessages, Cited, Select, Acceptable, Version, Status;
    service := Service(1, 0.0, false, true, s => s, (q, c) => true);
    query, hits := "q", [Version(1), Version(2)];
    VersionsPass(service, Version(1));
    VersionsPass(service, Version(2));
    SelectAll(hits, h => Acceptable(service, h));
    SelectAll(hits, h => IsEligible(service, h));
    NoStatusNoConflict(service, hits);
    assert Version(1) in hits && Covered(service, query, hits);
    BothVersionsDropped(hits);
  }

  lemma VersionsPass(service: Service, h: Hit)
    requires h == Version(1) || h == Version(2)
    requires service.minimumScore == 0.0 && forall s :: service.lower(s) == s
    ensures Acceptable(service, h) && Status(service, h) == ""
  {
    OneLetter('c');
  }

  lemma {:induction false} SelectAll(hits: seq<Hit>, keep: Hit -> bool)
    requires forall h | h in hits :: keep(h)
    ensures Select(hits, keep) == hits
  {
    if hits != [] {
      SelectAll(hits[..|hits| - 1], keep);
      assert hits == hits[..|hits| - 1] + [hits[|hits| - 1]];
    }
  }

  /** One chunk as it was retrieved on some day. */
  function Version(published: int): Hit {
    Hit("a", "t", "c", 1.0, false, None, None, None, Some(published))
  }

  lemma NoStatusNoConflict(service: Service, hits: seq<Hit>)
    requires forall h | h in hits :: Status(service, h) == ""
    ensures Conflicts(service, hits) == []
  {
    hide Conflicts, Status, StatusKey;
    if Conflicts(service, hits) != [] {
      ConflictsExactly(service, hits, Conflicts(service, hits)[0]);
    }
  }

  lemma BothVersionsDropped(hits: seq<Hit>)
    requires hits == [Version(1), Version(2)]
    ensures Cited(hits) == []
  {
    hide Cited;
    OneLetter('t');
    assert Version(1) in hits && Version(2) in hits && Superseded(Version(1), hits);
    HasMember(Cited(hits));
    forall h ensures h !in Cited(hits) {
      CitedExactly(hits, h);
    }
  }

  lemma OneLetter(c: char)
    requires !Text.IsSpace(c)
    ensures Text.Strip([c]) == [c]
  {
    assert [c][1..] == [] && [c][..0] == [];
  }

  /** The order of the hits changes neither the verdict nor which hits are cited, how often. */
  lemma OrderDoesNotMatter(service: Service, query: string, hits: seq<Hit>, other: seq<Hit>)
    requires multiset(hits) == multiset(other)
    ensures Decide(service, query, hits).sufficient == Decide(service, query, other).sufficient
    ensures Decide(service, query, hits).reasons == Decide(service, query, other).reasons
    ensures multiset(Decide(service, query, hits).cited) == multiset(Decide(service, query, other).cited)
  {
    hide Select, Superseded, Acceptable, IsEligible, Eligible, Conflicts, OutdatedMessages, OutdatedIds, Cited, Covered,
      When;
    var a, b := Eligible(service, hits), Eligible(service, other);
    EligiblePermutes(service, hits, other);
    SelectPermutes(hits, other, h => Acceptable(service, h));
    SameLength(a, b);
    SameLength(Select(hits, h => Acceptable(service, h)), Select(other, h => Acceptable(service, h)));
    CoveredPermutes(service, query, a, b);
    ConflictsPermute(service, a, b);
    CitedPermutes(a, b);
  }

  lemma SameLength(hits: seq<Hit>, other: seq<Hit>)
    requires multiset(hits) == multiset(other)
    ensures |hits| == |other|
  {
    assert |multiset(hits)| == |hits| && |multiset(other)| == |other|;
  }

  lemma EligiblePermutes(service: Service, hits: seq<Hit>, other: seq<Hit>)
    requires multiset(hits) == multiset(other)
    ensures multiset(Eligible(service, hits)) == multiset(Eligible(service, other))
  {
    hide Select, IsEligible;
    SelectPermutes(hits, other, h => IsEligible(service, h));
  }

  lemma SelectPermutes(hits: seq<Hit>, other: seq<Hit>, keep: Hit -> bool)
    requires multiset(hits) == multiset(other)
    ensures multiset(Select(hits, keep)) == multiset(Select(other, keep))
  {
    hide Select;
    forall h ensures multiset(Select(hits, keep))[h] == multiset(Select(other, keep))[h] {
      SelectMembers(hits, keep, h);
      SelectMembers(other, keep, h);
    }
  }

  lemma CoveredPermutes(service: Service, query: string, hits: seq<Hit>, other: seq<Hit>)
    requires multiset(hits) == multiset(other)
    ensures Covered(service, query, hits) == Covered(service, query, other)
  {
    SameMembers(hits, other);
  }

  lemma ConflictsPermute(service: Service, hits: seq<Hit>, other: seq<Hit>)
    requires multiset(hits) == multiset(other)
    ensures Conflicts(service, hits) != [] <==> Conflicts(service, other) != []
  {
    hide Conflicts, Status, StatusKey;
    SameMembers(hits, other);
    forall k ensures k in Conflicts(service, hits) <==> k in Conflicts(service, other) {
      ConflictsExactly(service, hits, k);
      ConflictsExactly(service, other, k);
    }
    HasMember(Conflicts(service, hits));
    HasMember(Conflicts(service, other));
  }

  lemma CitedPermutes(hits: seq<Hit>, other: seq<Hit>)
    requires multiset(hits) == multiset(other)
    ensures multiset(Cited(hits)) == multiset(Cited(other))
  {
    hide Select, OutdatedMessages, OutdatedIds, Dated, GroupKey;
    SameMembers(hits, other);
    var ids, otherIds := OutdatedIds(OutdatedMessages(hits)), OutdatedIds(OutdatedMessages(other));
    forall id ensures id in ids <==> id in otherIds {
      OutdatedExactly(hits, id);
      OutdatedExactly(other, id);
      assert forall h :: Superseded(h, hits) == Superseded(h, other);
    }
    SelectSame(other, (h: Hit) => h.chunkId !in otherIds, (h: Hit) => h.chunkId !in ids);
    SelectPermutes(hits, other, (h: Hit) => h.chunkId !in ids);
  }
}
