/**
 * The server's in-memory store: three maps keyed by auto-incremented ids
 * (users, notes, chat messages) and the three counters that issue the ids.
 * The request clock is a parameter `now` (milliseconds).
 */
module Storage {
  import opened Wrappers
  import opened Schema
  import JsString

  /** Lexicographic strict order on sort keys. */
  predicate Precedes(a: (int, int), b: (int, int)) {
    a.0 < b.0 || (a.0 == b.0 && a.1 < b.1)
  }

  /** Every element comes strictly before every later one under `key`. */
  predicate SortedBy<T>(s: seq<T>, key: T -> (int, int)) {
    forall i, j :: 0 <= i < j < |s| ==> Precedes(key(s[i]), key(s[j]))
  }

  /**
   * Listing order of notes: newest `createdAt` first. A JavaScript `Map`
   * yields values in insertion order, which is ascending id here, and
   * `Array.prototype.sort` is stable, so equal times stay in id order.
   */
  function NewestFirst(n: Note): (int, int) {
    (-n.createdAt, n.id)
  }

  /** Listing order of chat messages: oldest first, equal times in id order. */
  function OldestFirst(m: ChatMessage): (int, int) {
    (m.createdAt, m.id)
  }

  /** Inserts `x` at its place in a sorted sequence whose keys all differ from its own. */
  function InsertSorted<T(==,!new)>(x: T, s: seq<T>, key: T -> (int, int)): (r: seq<T>)
    requires SortedBy(s, key)
    requires forall y :: y in s ==> key(y) != key(x)
    ensures SortedBy(r, key)
    ensures forall y :: y in r <==> y in s || y == x
    ensures |r| == |s| + 1
  {
    if s == [] || Precedes(key(x), key(s[0])) then
      PrependSorted(x, s, key);
      [x] + s
    else
      assert forall y :: y in s[1..] ==> y in s;
      var rest := InsertSorted(x, s[1..], key);
      assert forall y :: y in rest ==> Precedes(key(s[0]), key(y)) by {
        forall y | y in rest ensures Precedes(key(s[0]), key(y)) {
          if y != x {
            var i :| 0 <= i < |s[1..]| && s[1..][i] == y;
            assert s[i + 1] == y;
          }
        }
      }
      PrependSorted(s[0], rest, key);
      [s[0]] + rest
  }

  /** An element before everything in a sorted sequence can lead it. */
  lemma PrependSorted<T(!new)>(h: T, t: seq<T>, key: T -> (int, int))
    requires SortedBy(t, key)
    requires forall y :: y in t ==> Precedes(key(h), key(y))
    ensures SortedBy([h] + t, key)
  {
    var r := [h] + t;
    forall i, j | 0 <= i < j < |r| ensures Precedes(key(r[i]), key(r[j])) {
      assert r[j] == t[j - 1];
      if i > 0 {
        assert r[i] == t[i - 1];
      } else {
        assert r[j] in t;
      }
    }
  }

  /** The head of a sorted sequence comes before each of its other elements. */
  lemma SortedHeadFirst<T(!new)>(a: seq<T>, key: T -> (int, int), x: T)
    requires SortedBy(a, key) && x in a && x != a[0]
    ensures Precedes(key(a[0]), key(x))
  {
    var i :| 0 <= i < |a| && a[i] == x;
  }

  /** The head of a sorted sequence does not occur again in its tail. */
  lemma SortedTailOmitsHead<T(!new)>(a: seq<T>, key: T -> (int, int), x: T)
    requires SortedBy(a, key) && |a| > 0 && x in a[1..]
    ensures x != a[0] && x in a
  {
    var i :| 1 <= i < |a| && a[i] == x;
    assert Precedes(key(a[0]), key(a[i]));
  }

  /** Two sequences with the same elements are empty together. */
  lemma SameElementsBothEmpty<T(!new)>(a: seq<T>, b: seq<T>)
    requires forall x :: x in a <==> x in b
    ensures a == [] <==> b == []
  {
    if a != [] {
      assert a[0] in b;
    }
    if b != [] {
      assert b[0] in a;
    }
  }

  /**
   * A sorted listing is determined by its elements: whatever order the map
   * is walked in, the sorted result is the same sequence.
   */
  lemma {:induction false} SortedByUnique<T(!new)>(a: seq<T>, b: seq<T>, key: T -> (int, int))
    requires SortedBy(a, key) && SortedBy(b, key)
    requires forall x :: x in a <==> x in b
    ensures a == b
  {
    SameElementsBothEmpty(a, b);
    if a != [] {
      assert a[0] in b;
      if a[0] != b[0] {
        SortedHeadFirst(a, key, b[0]);
        SortedHeadFirst(b, key, a[0]);
        assert false;
      }
      forall x ensures x in a[1..] <==> x in b[1..] {
        if x in a[1..] {
          SortedTailOmitsHead(a, key, x);
          assert x in b[1..] by { assert b == [b[0]] + b[1..]; }
        }
        if x in b[1..] {
          SortedTailOmitsHead(b, key, x);
          assert x in a[1..] by { assert a == [a[0]] + a[1..]; }
        }
      }
      SortedByUnique(a[1..], b[1..], key);
      assert a == [a[0]] + a[1..] && b == [b[0]] + b[1..];
    }
  }

  /** `searchNotes`: the lowercased query occurs in the lowercased title, content or non-empty extracted text. */
  predicate MatchesQuery(n: Note, query: string) {
    var q := JsString.ToLower(query);
    || JsString.Includes(JsString.ToLower(n.title), q)
    || JsString.Includes(JsString.ToLower(n.content), q)
    || (n.extractedText.Some? && n.extractedText.value != ""
        && JsString.Includes(JsString.ToLower(n.extractedText.value), q))
  }

  /** JavaScript `value || "freeform"` on an optional style. */
  function StyleOrDefault(style: Option<string>): (r: string)
    ensures style.Some? && style.value != "" ==> r == style.value
    ensures (style.None? || style == Some("")) ==> r == "freeform"
  {
    if style.Some? && style.value != "" then style.value else "freeform"
  }

  /** JavaScript `value || null` on an optional, nullable string: absent, null and "" become null. */
  function OrNull(v: Option<Option<string>>): (r: Option<string>)
    ensures r.Some? <==> v.Some? && v.value.Some? && v.value.value != ""
    ensures r.Some? ==> v == Some(r)
  {
    if v.Some? && v.value.Some? && v.value.value != "" then v.value else None
  }

  /** The spread `{ ...existing, ...data, updatedAt: now }` of an update. */
  function ApplyUpdate(n: Note, data: InsertNote, now: int): Note {
    n.(title := data.title.GetOr(n.title),
       content := data.content.GetOr(n.content),
       style := data.style.GetOr(n.style),
       imageUrl := data.imageUrl.GetOr(n.imageUrl),
       extractedText := data.extractedText.GetOr(n.extractedText),
       updatedAt := now)
  }

  class MemStorage {
    var users: map<int, User>
    var notes: map<int, Note>
    var chatMessages: map<int, ChatMessage>
    var currentUserId: int
    var currentNoteId: int
    var currentChatId: int

    /** Every id a counter has ever issued; never shrinks. */
    ghost var issuedNoteIds: set<int>
    ghost var issuedChatIds: set<int>

    ghost predicate Valid()
      reads this
    {
      && 1 <= currentUserId && 1 <= currentNoteId && 1 <= currentChatId
      && (forall id :: id in users ==> 1 <= id < currentUserId && users[id].id == id)
      && (forall id :: id in notes ==> id in issuedNoteIds && notes[id].id == id)
      && (forall id :: id in chatMessages ==> id in issuedChatIds && chatMessages[id].id == id)
      && (forall id :: id in issuedNoteIds <==> 1 <= id < currentNoteId)
      && (forall id :: id in issuedChatIds <==> 1 <= id < currentChatId)
    }

    /** `n` is the value stored under its own id. */
    predicate StoredNote(n: Note)
      reads this
    {
      n.id in notes && notes[n.id] == n
    }

    predicate StoredMessage(m: ChatMessage)
      reads this
    {
      m.id in chatMessages && chatMessages[m.id] == m
    }

    constructor ()
      ensures Valid()
      ensures users == map[] && notes == map[] && chatMessages == map[]
      ensures currentUserId == 1 && currentNoteId == 1 && currentChatId == 1
    {
      users, notes, chatMessages := map[], map[], map[];
      currentUserId, currentNoteId, currentChatId := 1, 1, 1;
      issuedNoteIds, issuedChatIds := {}, {};
    }

    // ---------------------------------------------------------------- users

    method GetUser(id: int) returns (r: Option<User>)
      requires Valid()
      ensures r.Some? <==> id in users
      ensures r.Some? ==> r.value.id == id && users[id] == r.value
    {
      r := if id in users then Some(users[id]) else None;
    }

    /** `Array.prototype.find` over the users in insertion (ascending id) order. */
    method GetUserByUsername(username: string) returns (r: Option<User>)
      requires Valid()
      ensures r.None? <==> forall id :: id in users ==> users[id].username != username
      ensures r.Some? ==> r.value.id in users && users[r.value.id] == r.value && r.value.username == username
      ensures r.Some? ==> forall id :: id in users && id < r.value.id ==> users[id].username != username
    {
      var i := 1;
      while i < currentUserId
        invariant 1 <= i <= currentUserId
        invariant forall id :: id in users && id < i ==> users[id].username != username
      {
        if i in users && users[i].username == username {
          return Some(users[i]);
        }
        i := i + 1;
      }
      return None;
    }

    method CreateUser(data: InsertUser) returns (u: User)
      requires Valid()
      modifies this
      ensures Valid()
      ensures u == User(old(currentUserId), data.username, data.password)
      ensures old(currentUserId) !in old(users)
      ensures users == old(users)[u.id := u] && currentUserId == old(currentUserId) + 1
      ensures notes == old(notes) && chatMessages == old(chatMessages)
      ensures currentNoteId == old(currentNoteId) && currentChatId == old(currentChatId)
      ensures issuedNoteIds == old(issuedNoteIds) && issuedChatIds == old(issuedChatIds)
    {
      u := User(currentUserId, data.username, data.password);
      users := users[currentUserId := u];
      currentUserId := currentUserId + 1;
    }

    // ---------------------------------------------------------------- notes

    /**
     * Filter the stored notes with `keep`, newest first. The ids are walked
     * in ascending order, the order a `Map` of this store yields its values.
     */
    method CollectNotes(keep: Note -> bool) returns (r: seq<Note>)
      requires Valid()
      ensures SortedBy(r, NewestFirst)
      ensures forall n :: n in r <==> StoredNote(n) && keep(n)
    {
      r := [];
      var i := 1;
      while i < currentNoteId
        invariant 1 <= i <= currentNoteId
        invariant SortedBy(r, NewestFirst)
        invariant forall n :: n in r ==> StoredNote(n) && n.id < i && keep(n)
        invariant forall id :: id in notes && id < i && keep(notes[id]) ==> notes[id] in r
      {
        if i in notes && keep(notes[i]) {
          r := InsertSorted(notes[i], r, NewestFirst);
        }
        i := i + 1;
      }
    }

    /** `getAllNotes`: every stored note once, newest first. */
    method GetAllNotes() returns (r: seq<Note>)
      requires Valid()
      ensures SortedBy(r, NewestFirst)
      ensures forall n :: n in r <==> StoredNote(n)
      ensures forall i, j :: 0 <= i < j < |r| ==> r[i] != r[j]
    {
      r := CollectNotes((n: Note) => true);
    }

    /** `getNote`. */
    method GetNote(id: int) returns (r: Option<Note>)
      requires Valid()
      ensures r.Some? <==> id in notes
      ensures r.Some? ==> r.value.id == id && StoredNote(r.value)
    {
      r := if id in notes then Some(notes[id]) else None;
    }

    /**
     * `createNote`: the current counter becomes the id, the counter moves on;
     * style defaults to "freeform", image and extracted text to null, and both
     * timestamps are the same instant.
     */
    method CreateNote(data: InsertNote, now: int) returns (n: Note)
      requires Valid()
      requires data.title.Some? && data.content.Some?
      modifies this
      ensures Valid()
      ensures n.id == old(currentNoteId) && n.id !in old(issuedNoteIds) && n.id !in old(notes)
      ensures forall id :: id in old(issuedNoteIds) ==> id < n.id
      ensures n.title == data.title.value && n.content == data.content.value
      ensures n.style == StyleOrDefault(data.style)
      ensures n.imageUrl == OrNull(data.imageUrl) && n.extractedText == OrNull(data.extractedText)
      ensures n.createdAt == now && n.updatedAt == now
      ensures notes == old(notes)[n.id := n]
      ensures currentNoteId == old(currentNoteId) + 1 && issuedNoteIds == old(issuedNoteIds) + {n.id}
      ensures users == old(users) && chatMessages == old(chatMessages)
      ensures currentUserId == old(currentUserId) && currentChatId == old(currentChatId)
      ensures issuedChatIds == old(issuedChatIds)
    {
      n := Note(currentNoteId, data.title.value, data.content.value, StyleOrDefault(data.style),
                OrNull(data.imageUrl), OrNull(data.extractedText), now, now);
      notes := notes[currentNoteId := n];
      issuedNoteIds := issuedNoteIds + {currentNoteId};
      currentNoteId := currentNoteId + 1;
    }

    /**
     * `updateNote`: a missing id yields undefined and changes nothing; a
     * present one gets the supplied fields and a fresh `updatedAt`, and keeps
     * its id, its creation time and every field the data leaves out.
     */
    method UpdateNote(id: int, data: InsertNote, now: int) returns (r: Option<Note>)
      requires Valid()
      modifies this
      ensures Valid()
      ensures r.Some? <==> id in old(notes)
      ensures r.None? ==> notes == old(notes)
      ensures r.Some? ==> r.value == ApplyUpdate(old(notes)[id], data, now) && notes == old(notes)[id := r.value]
      ensures r.Some? ==> r.value.id == id && r.value.createdAt == old(notes)[id].createdAt && r.value.updatedAt == now
      ensures users == old(users) && chatMessages == old(chatMessages)
      ensures currentUserId == old(currentUserId) && currentNoteId == old(currentNoteId) && currentChatId == old(currentChatId)
      ensures issuedNoteIds == old(issuedNoteIds) && issuedChatIds == old(issuedChatIds)
    {
      if id !in notes {
        return None;
      }
      var updated := ApplyUpdate(notes[id], data, now);
      notes := notes[id := updated];
      r := Some(updated);
    }

    /** `deleteNote`: true exactly when the id was stored; every other entry stays. */
    method DeleteNote(id: int) returns (deleted: bool)
      requires Valid()
      modifies this
      ensures Valid()
      ensures deleted <==> id in old(notes)
      ensures id !in notes && notes == old(notes) - {id}
      ensures forall k :: k in old(notes) && k != id ==> k in notes && notes[k] == old(notes)[k]
      ensures users == old(users) && chatMessages == old(chatMessages)
      ensures currentUserId == old(currentUserId) && currentNoteId == old(currentNoteId) && currentChatId == old(currentChatId)
      ensures issuedNoteIds == old(issuedNoteIds) && issuedChatIds == old(issuedChatIds)
    {
      deleted := id in notes;
      notes := notes - {id};
    }

    /** `searchNotes`: exactly the notes matching the query, newest first. */
    method SearchNotes(query: string) returns (r: seq<Note>)
      requires Valid()
      ensures SortedBy(r, NewestFirst)
      ensures forall n :: n in r <==> StoredNote(n) && MatchesQuery(n, query)
    {
      r := CollectNotes((n: Note) => MatchesQuery(n, query));
    }

    /** `getNotesByStyle`: exactly the notes whose style equals the argument, newest first. */
    method GetNotesByStyle(style: string) returns (r: seq<Note>)
      requires Valid()
      ensures SortedBy(r, NewestFirst)
      ensures forall n :: n in r <==> StoredNote(n) && n.style == style
    {
      r := CollectNotes((n: Note) => n.style == style);
    }

    // ----------------------------------------------------------------- chat

    /** `getAllChatMessages`: every stored message once, oldest first. */
    method GetAllChatMessages() returns (r: seq<ChatMessage>)
      requires Valid()
      ensures SortedBy(r, OldestFirst)
      ensures forall m :: m in r <==> StoredMessage(m)
    {
      r := [];
      var i := 1;
      while i < currentChatId
        invariant 1 <= i <= currentChatId
        invariant SortedBy(r, OldestFirst)
        invariant forall m :: m in r ==> StoredMessage(m) && m.id < i
        invariant forall id :: id in chatMessages && id < i ==> chatMessages[id] in r
      {
        if i in chatMessages {
          r := InsertSorted(chatMessages[i], r, OldestFirst);
        }
        i := i + 1;
      }
    }

    /** `createChatMessage`: a fresh id from the chat counter, stamped `now`. */
    method CreateChatMessage(data: InsertChatMessage, now: int) returns (m: ChatMessage)
      requires Valid()
      modifies this
      ensures Valid()
      ensures m == ChatMessage(old(currentChatId), data.message, data.isUser, now)
      ensures m.id !in old(issuedChatIds) && m.id !in old(chatMessages)
      ensures chatMessages == old(chatMessages)[m.id := m]
      ensures currentChatId == old(currentChatId) + 1 && issuedChatIds == old(issuedChatIds) + {m.id}
      ensures users == old(users) && notes == old(notes)
      ensures currentUserId == old(currentUserId) && currentNoteId == old(currentNoteId)
      ensures issuedNoteIds == old(issuedNoteIds)
    {
      m := ChatMessage(currentChatId, data.message, data.isUser, now);
      chatMessages := chatMessages[currentChatId := m];
      issuedChatIds := issuedChatIds + {currentChatId};
      currentChatId := currentChatId + 1;
    }

    /** `clearChatHistory`: empties the log but keeps the counter, so later ids are still new. */
    method ClearChatHistory()
      requires Valid()
      modifies this
      ensures Valid()
      ensures chatMessages == map[]
      ensures currentChatId == old(currentChatId) && issuedChatIds == old(issuedChatIds)
      ensures users == old(users) && notes == old(notes)
      ensures currentUserId == old(currentUserId) && currentNoteId == old(currentNoteId)
      ensures issuedNoteIds == old(issuedNoteIds)
    {
      chatMessages := map[];
    }
  }
}
