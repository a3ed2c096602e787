/** The navigation bar's notification bell: the unread count it shows and
    whether the red badge is drawn. */
module Navbar {
  import opened Types
  import opened Seqs

  predicate IsUnread(n: Notification) {
    !n.isRead
  }

  /** The number of notifications not yet read. */
  function UnreadCount(ns: seq<Notification>): (r: nat)
    ensures r <= |ns|
    ensures r == 0 <==> forall i :: 0 <= i < |ns| ==> ns[i].isRead
    ensures r == |ns| <==> forall i :: 0 <= i < |ns| ==> !ns[i].isRead
  {
    FilterEmptyIff(ns, IsUnread);
    FilterFullIff(ns, IsUnread);
    assert (forall i :: 0 <= i < |ns| ==> ns[i].isRead) <==> forall x :: x in ns ==> !IsUnread(x) by {
      assert forall i :: 0 <= i < |ns| ==> ns[i] in ns;
    }
    assert (forall i :: 0 <= i < |ns| ==> !ns[i].isRead) <==> forall x :: x in ns ==> IsUnread(x) by {
      assert forall i :: 0 <= i < |ns| ==> ns[i] in ns;
    }
    |Filter(ns, IsUnread)|
  }

  /** The count of a non-empty list splits into its head and its tail. */
  lemma UnreadCountCons(ns: seq<Notification>)
    requires ns != []
    ensures UnreadCount(ns) == (if ns[0].isRead then 0 else 1) + UnreadCount(ns[1..])
  {
  }

  /** The count of a concatenation is the sum of the counts. */
  lemma UnreadCountAppend(a: seq<Notification>, b: seq<Notification>)
    ensures UnreadCount(a + b) == UnreadCount(a) + UnreadCount(b)
  {
    FilterAppend(a, b, IsUnread);
  }

  /** The badge is drawn when the count is positive, that is, exactly when
      some notification is unread. */
  function ShowsBadge(ns: seq<Notification>): (b: bool)
    ensures b <==> exists i :: 0 <= i < |ns| && !ns[i].isRead
  {
    UnreadCount(ns) > 0
  }
}
