/** The notification inbox of the company portal
    (src/Company/Notifications/Notification.jsx): loading the company's
    notifications newest first, the unread and read tabs, marking as read,
    and deleting with a confirmation step for unread entries. */
module Notifications {
  import opened Seqs
  import opened Records

  /** A notification as the inbox uses it. `companyId` is the value of
      `Number(n.company_id)`, `None` when that is NaN; `createdAt` is the
      creation time as a timestamp. */
  datatype Notification = Notification(
    id: int,
    companyId: Option<int>,
    isRead: bool,
    createdAt: int,
    title: string,
    message: string)

  /** The claims of the decoded login token that the inbox reads. */
  datatype Claims = Claims(companyId: Option<int>, id: Option<int>)

  datatype Tab = Unread | Read

  /** The `deleteModal` state `{open, id}`. */
  datatype DeleteModal = DeleteModal(open: bool, id: Option<int>)

  const Closed := DeleteModal(false, None)

  // ---- loading ----

  /** `Number(currentCompanyId)` (lines 24-30, 37): without a token the id
      stays `null`, which is 0; otherwise `company_id` when truthy, else `id`,
      whose absence is NaN (`None`). */
  function CurrentCompanyKey(token: Option<Claims>): (r: Option<int>)
    ensures token.None? ==> r == Some(0)
    ensures token.Some? && token.value.companyId.Some? && token.value.companyId.value != 0 ==>
      r == token.value.companyId
    ensures token.Some? && !(token.value.companyId.Some? && token.value.companyId.value != 0) ==>
      r == token.value.id
  {
    match token
    case None => Some(0)
    case Some(c) => if c.companyId.Some? && c.companyId.value != 0 then c.companyId else c.id
  }

  /** `Number(n.company_id) === key`: NaN equals nothing. */
  predicate OfCompany(n: Notification, key: Option<int>)
  {
    n.companyId.Some? && key.Some? && n.companyId.value == key.value
  }

  /** `res.data.filter(n => Number(n.company_id) === Number(currentCompanyId))` (lines 36-38). */
  function ForCompany(ns: seq<Notification>, key: Option<int>): (r: seq<Notification>)
    ensures forall n :: n in r <==> n in ns && n.companyId.Some? && key.Some? && n.companyId.value == key.value
    ensures IsSubsequence(r, ns)
    ensures forall n :: multiset(r)[n] == if n.companyId.Some? && key.Some? && n.companyId.value == key.value then multiset(ns)[n] else 0
  {
    FilterIsSubsequence(ns, (n: Notification) => OfCompany(n, key));
    FilterCounts(ns, (n: Notification) => OfCompany(n, key));
    Filter(ns, (n: Notification) => OfCompany(n, key))
  }

  /** Newest first: no entry is older than one after it. */
  predicate NewestFirstOrder(ns: seq<Notification>)
  {
    forall i, j :: 0 <= i < j < |ns| ==> ns[i].createdAt >= ns[j].createdAt
  }

  /** Places `x` before the first entry that is not newer than it. */
  function Insert(x: Notification, s: seq<Notification>): (r: seq<Notification>)
    ensures multiset(r) == multiset(s) + multiset{x}
    ensures r[0] == x || (s != [] && r[0] == s[0])
  {
    if s == [] || s[0].createdAt <= x.createdAt then [x] + s
    else
      assert s == [s[0]] + s[1..];
      [s[0]] + Insert(x, s[1..])
  }

  lemma {:induction false} InsertKeepsOrder(x: Notification, s: seq<Notification>)
    requires NewestFirstOrder(s)
    ensures NewestFirstOrder(Insert(x, s))
  {
    if s != [] && s[0].createdAt > x.createdAt {
      InsertKeepsOrder(x, s[1..]);
      var rest := Insert(x, s[1..]);
      assert rest[0].createdAt <= s[0].createdAt;
      assert forall k :: 0 <= k < |rest| ==> rest[k].createdAt <= rest[0].createdAt;
      assert Insert(x, s) == [s[0]] + rest;
    }
  }

  /** `filteredData.sort((a, b) => new Date(b.createdAt) - new Date(a.createdAt))`
      (line 41): the stable sort, newest first. */
  function NewestFirst(ns: seq<Notification>): (r: seq<Notification>)
    ensures NewestFirstOrder(r)
    ensures multiset(r) == multiset(ns)
  {
    if ns == [] then []
    else
      assert ns == [ns[0]] + ns[1..];
      InsertKeepsOrder(ns[0], NewestFirst(ns[1..]));
      Insert(ns[0], NewestFirst(ns[1..]))
  }

  /** The entries created at time `d`, in list order. */
  function CreatedAt(ns: seq<Notification>, d: int): seq<Notification>
  {
    Filter(ns, (n: Notification) => n.createdAt == d)
  }

  lemma CreatedAtCons(a: Notification, t: seq<Notification>, d: int)
    ensures CreatedAt([a] + t, d) == (if a.createdAt == d then [a] else []) + CreatedAt(t, d)
  {
    FilterCons(a, t, (n: Notification) => n.createdAt == d);
  }

  lemma {:induction false} InsertKeepsTies(x: Notification, s: seq<Notification>, d: int)
    ensures CreatedAt(Insert(x, s), d) == (if x.createdAt == d then [x] else []) + CreatedAt(s, d)
  {
    if s == [] || s[0].createdAt <= x.createdAt {
      CreatedAtCons(x, s, d);
    } else {
      var t := s[1..];
      assert s == [s[0]] + t;
      var inserted := Insert(x, t);
      assert Insert(x, s) == [s[0]] + inserted;
      InsertKeepsTies(x, t, d);
      PassNewer(s[0], x, inserted, t, d);
    }
  }

  /** An entry newer than `x` may go in front of it without changing which
      entries tie on `d` or their order. */
  lemma PassNewer(a: Notification, x: Notification, rest: seq<Notification>, t: seq<Notification>, d: int)
    requires a.createdAt > x.createdAt
    requires CreatedAt(rest, d) == (if x.createdAt == d then [x] else []) + CreatedAt(t, d)
    ensures CreatedAt([a] + rest, d) == (if x.createdAt == d then [x] else []) + CreatedAt([a] + t, d)
  {
    CreatedAtCons(a, rest, d);
    CreatedAtCons(a, t, d);
  }

  /** The sort is stable: entries created at the same time keep their order. */
  lemma {:induction false} NewestFirstStable(ns: seq<Notification>, d: int)
    ensures CreatedAt(NewestFirst(ns), d) == CreatedAt(ns, d)
  {
    if ns != [] {
      NewestFirstStable(ns[1..], d);
      InsertKeepsTies(ns[0], NewestFirst(ns[1..]), d);
    }
  }

  /** A list that is already newest first is left as it is. */
  lemma {:induction false} NewestFirstOfOrdered(ns: seq<Notification>)
    requires NewestFirstOrder(ns)
    ensures NewestFirst(ns) == ns
  {
    if ns != [] {
      NewestFirstOfOrdered(ns[1..]);
      assert ns == [ns[0]] + ns[1..];
    }
  }

  /** What a successful fetch stores: the company's notifications, newest first. */
  function Loaded(data: seq<Notification>, token: Option<Claims>): seq<Notification>
  {
    NewestFirst(ForCompany(data, CurrentCompanyKey(token)))
  }

  /** The stored list holds exactly the company's notifications of the
      response, each as often as the response has it. */
  lemma LoadedContents(data: seq<Notification>, token: Option<Claims>)
    ensures NewestFirstOrder(Loaded(data, token))
    ensures multiset(Loaded(data, token)) == multiset(ForCompany(data, CurrentCompanyKey(token)))
    ensures forall n :: n in Loaded(data, token) <==> n in data && OfCompany(n, CurrentCompanyKey(token))
  {
    var f := ForCompany(data, CurrentCompanyKey(token));
    assert forall n :: n in Loaded(data, token) <==> n in multiset(f);
  }

  // ---- the two tabs ----

  /** `notifications.filter(n => !n.is_read)` (line 97). */
  function UnreadList(ns: seq<Notification>): seq<Notification>
  {
    Filter(ns, (n: Notification) => !n.isRead)
  }

  /** `notifications.filter(n => n.is_read)` (line 98). */
  function ReadList(ns: seq<Notification>): seq<Notification>
  {
    Filter(ns, (n: Notification) => n.isRead)
  }

  /** The tabs partition the list: every entry is in exactly one of them,
      each keeps the list's order, and the two counts add up to the total. */
  lemma TabsPartition(ns: seq<Notification>)
    ensures |UnreadList(ns)| + |ReadList(ns)| == |ns|
    ensures multiset(UnreadList(ns)) + multiset(ReadList(ns)) == multiset(ns)
    ensures forall n :: n in ns ==> (n in UnreadList(ns) <==> n !in ReadList(ns))
    ensures IsSubsequence(UnreadList(ns), ns) && IsSubsequence(ReadList(ns), ns)
  {
    FilterPartition(ns, (n: Notification) => !n.isRead, (n: Notification) => n.isRead);
    FilterIsSubsequence(ns, (n: Notification) => !n.isRead);
    FilterIsSubsequence(ns, (n: Notification) => n.isRead);
  }

  /** `activeTab === 'unread' ? unreadList : readList` (line 99). */
  function TabList(ns: seq<Notification>, tab: Tab): (r: seq<Notification>)
    ensures forall n :: n in r <==> n in ns && (n.isRead <==> tab.Read?)
  {
    if tab == Unread then
      assert forall n :: n in UnreadList(ns) <==> n in ns && !n.isRead;
      UnreadList(ns)
    else
      assert forall n :: n in ReadList(ns) <==> n in ns && n.isRead;
      ReadList(ns)
  }

  // ---- updates ----

  /** `prev.map(n => n.id === id ? { ...n, is_read: true } : n)` (line 58). */
  function MarkRead(ns: seq<Notification>, id: int): (r: seq<Notification>)
    ensures |r| == |ns|
    ensures forall i :: 0 <= i < |ns| && ns[i].id != id ==> r[i] == ns[i]
    ensures forall i :: 0 <= i < |ns| && ns[i].id == id ==> r[i] == ns[i].(isRead := true)
  {
    if ns == [] then []
    else [if ns[0].id == id then ns[0].(isRead := true) else ns[0]] + MarkRead(ns[1..], id)
  }

  /** `prev.filter(n => n.id !== id)` (lines 69, 82). */
  function WithoutId(ns: seq<Notification>, id: int): (r: seq<Notification>)
    ensures forall n :: n in r <==> n in ns && n.id != id
    ensures IsSubsequence(r, ns)
    ensures forall n :: multiset(r)[n] == if n.id != id then multiset(ns)[n] else 0
  {
    FilterIsSubsequence(ns, (n: Notification) => n.id != id);
    FilterCounts(ns, (n: Notification) => n.id != id);
    Filter(ns, (n: Notification) => n.id != id)
  }

  /** Marking `id` as read takes exactly its entries out of the unread tab. */
  lemma {:induction false} MarkReadLeavesUnread(ns: seq<Notification>, id: int)
    ensures UnreadList(MarkRead(ns, id)) == WithoutId(UnreadList(ns), id)
  {
    if ns != [] {
      MarkReadLeavesUnread(ns[1..], id);
      var r := MarkRead(ns, id);
      assert r[1..] == MarkRead(ns[1..], id);
      if !ns[0].isRead {
        assert UnreadList(ns) == [ns[0]] + UnreadList(ns[1..]);
      }
    }
  }

  /** Marking twice is marking once. */
  lemma MarkReadIdempotent(ns: seq<Notification>, id: int)
    ensures MarkRead(MarkRead(ns, id), id) == MarkRead(ns, id)
  {
  }

  /** Marking as read keeps the newest-first order. */
  lemma MarkReadKeepsOrder(ns: seq<Notification>, id: int)
    requires NewestFirstOrder(ns)
    ensures NewestFirstOrder(MarkRead(ns, id))
  {
    var r := MarkRead(ns, id);
    assert forall i :: 0 <= i < |ns| ==> r[i].createdAt == ns[i].createdAt;
  }

  /** Deleting keeps the newest-first order. */
  lemma WithoutIdKeepsOrder(ns: seq<Notification>, id: int)
    requires NewestFirstOrder(ns)
    ensures NewestFirstOrder(WithoutId(ns, id))
  {
    FilterPairwise(ns, (n: Notification) => n.id != id, (a: Notification, b: Notification) => a.createdAt >= b.createdAt);
  }

  /** Deleting from the read tab removes the id there and nowhere else. */
  lemma DeleteFromReadTab(ns: seq<Notification>, id: int)
    ensures ReadList(WithoutId(ns, id)) == WithoutId(ReadList(ns), id)
    ensures UnreadList(WithoutId(ns, id)) == WithoutId(UnreadList(ns), id)
  {
    FilterFilter(ns, (n: Notification) => n.id != id, (n: Notification) => n.isRead,
      (n: Notification) => n.isRead && n.id != id);
    FilterFilter(ns, (n: Notification) => n.isRead, (n: Notification) => n.id != id,
      (n: Notification) => n.isRead && n.id != id);
    FilterFilter(ns, (n: Notification) => n.id != id, (n: Notification) => !n.isRead,
      (n: Notification) => !n.isRead && n.id != id);
    FilterFilter(ns, (n: Notification) => !n.isRead, (n: Notification) => n.id != id,
      (n: Notification) => !n.isRead && n.id != id);
  }

  /** The inbox component's state: the list, the selected tab and the
      confirmation modal for deleting an unread notification. */
  class Inbox {
    var notifications: seq<Notification>
    var activeTab: Tab
    var deleteModal: DeleteModal

    /** The list is always newest first. */
    predicate Valid()
      reads this
    {
      NewestFirstOrder(notifications)
    }

    /** The initial state (lines 13-16). */
    constructor()
      ensures Valid()
      ensures notifications == [] && activeTab == Unread && deleteModal == Closed
    {
      notifications := [];
      activeTab := Unread;
      deleteModal := Closed;
    }

    /** `unreadList.length` and `readList.length`, the tab counters (lines 135, 145). */
    function Counts(): (r: (nat, nat))
      reads this
      ensures r.0 == |UnreadList(notifications)| && r.1 == |ReadList(notifications)|
      ensures r.0 + r.1 == |notifications|
    {
      TabsPartition(notifications);
      (|UnreadList(notifications)|, |ReadList(notifications)|)
    }

    /** `displayList` (line 99). */
    function DisplayList(): (r: seq<Notification>)
      reads this
      ensures forall n :: n in r <==> n in notifications && (n.isRead <==> activeTab.Read?)
    {
      TabList(notifications, activeTab)
    }

    /** `fetchNotifications` (lines 18-49): a response holding an array
      replaces the list with the company's notifications, newest first; any
      other response or a failed request leaves it as it was. */
    method Fetch(token: Option<Claims>, response: Option<seq<Notification>>)
      requires Valid()
      modifies this
      ensures Valid()
      ensures response.Some? ==> notifications == Loaded(response.value, token)
      ensures response.None? ==> notifications == old(notifications)
      ensures activeTab == old(activeTab) && deleteModal == old(deleteModal)
    {
      var key := CurrentCompanyKey(token);
      if response.Some? {
        var filtered := ForCompany(response.value, key);
        notifications := NewestFirst(filtered);
      }
    }

    method SelectTab(tab: Tab)
      requires Valid()
      modifies this
      ensures Valid()
      ensures activeTab == tab
      ensures notifications == old(notifications) && deleteModal == old(deleteModal)
    {
      activeTab := tab;
    }

    /** `markAsRead` (lines 55-63): after the server accepts, the entries
      with `id` are read; if the call fails nothing changes. */
    method MarkAsRead(id: int, apiOk: bool)
      requires Valid()
      modifies this
      ensures Valid()
      ensures notifications == if apiOk then MarkRead(old(notifications), id) else old(notifications)
      ensures activeTab == old(activeTab) && deleteModal == old(deleteModal)
    {
      if apiOk {
        MarkReadKeepsOrder(notifications, id);
        notifications := MarkRead(notifications, id);
      }
    }

    /** `handleDelete` (lines 65-77): in the read tab the entry is deleted
      once the server accepts; in the unread tab the list is left alone and
      the confirmation modal opens for `id`. */
    method HandleDelete(id: int, apiOk: bool)
      requires Valid()
      modifies this
      ensures Valid()
      ensures old(activeTab) == Read ==>
        notifications == (if apiOk then WithoutId(old(notifications), id) else old(notifications))
        && deleteModal == old(deleteModal)
      ensures old(activeTab) == Unread ==>
        notifications == old(notifications) && deleteModal == DeleteModal(true, Some(id))
      ensures activeTab == old(activeTab)
    {
      if activeTab == Read {
        if apiOk {
          WithoutIdKeepsOrder(notifications, id);
          notifications := WithoutId(notifications, id);
        }
      } else {
        deleteModal := DeleteModal(true, Some(id));
      }
    }

    /** `confirmDelete` (lines 79-88): once the server accepts, the entries
      with the modal's id are deleted and the modal closes; a failed call
      changes nothing. A modal without an id deletes nothing. */
    method ConfirmDelete(apiOk: bool)
      requires Valid()
      modifies this
      ensures Valid()
      ensures !apiOk ==> notifications == old(notifications) && deleteModal == old(deleteModal)
      ensures apiOk ==> deleteModal == Closed
      ensures apiOk && old(deleteModal).id.Some? ==>
        notifications == WithoutId(old(notifications), old(deleteModal).id.value)
      ensures apiOk && old(deleteModal).id.None? ==> notifications == old(notifications)
      ensures activeTab == old(activeTab)
    {
      if apiOk {
        if deleteModal.id.Some? {
          WithoutIdKeepsOrder(notifications, deleteModal.id.value);
          notifications := WithoutId(notifications, deleteModal.id.value);
        }
        deleteModal := Closed;
      }
    }

    /** The modal's Cancel button (line 218). */
    method CancelDelete()
      requires Valid()
      modifies this
      ensures Valid()
      ensures deleteModal == Closed
      ensures notifications == old(notifications) && activeTab == old(activeTab)
    {
      deleteModal := Closed;
    }
  }
}
