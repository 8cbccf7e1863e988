/**
 * The children of the document body as values, for the notification ("toast") system:
 * which children are notifications, the severity colours, and the three ways the list
 * of children changes (replace all notifications by a new one, mark one as leaving,
 * detach one).
 */
module Notifications {
  import opened Options

  /**
   * A child of the document body: a `.custom-notification` element, identified by the
   * order in which it was created, with its type, its text and whether its exit
   * animation has started; or any other element of the page.
   */
  datatype Child =
    | Notice(id: nat, kind: string, message: string, exiting: bool)
    | Other(name: string)

  datatype Colours = Colours(background: string, border: string)

  const SuccessColours := Colours("#059669", "#10b981")
  const ErrorColours := Colours("#dc2626", "#ef4444")
  const InfoColours := Colours("#2563eb", "#3b82f6")

  /** The background and border colours of a notification: one pair per severity, blue for any type but the two named ones. */
  function ColoursOf(kind: string): (c: Colours)
    ensures c == SuccessColours <==> kind == "success"
    ensures c == ErrorColours <==> kind == "error"
    ensures c == InfoColours <==> kind != "success" && kind != "error"
  {
    match kind
    case "success" => SuccessColours
    case "error" => ErrorColours
    case _ => InfoColours
  }

  /** The children that are not notifications, in their order. */
  function OthersOf(body: seq<Child>): (r: seq<Child>)
    ensures |r| <= |body|
    ensures forall k | 0 <= k < |r| :: r[k].Other?
  {
    if body == [] then []
    else if body[0].Other? then [body[0]] + OthersOf(body[1..])
    else OthersOf(body[1..])
  }

  /** The children that are notifications, in their order. */
  function NoticesOf(body: seq<Child>): (r: seq<Child>)
    ensures |r| <= |body|
    ensures forall k | 0 <= k < |r| :: r[k].Notice?
    ensures forall k | 0 <= k < |body| && body[k].Notice? :: body[k] in r
  {
    if body == [] then []
    else if body[0].Notice? then [body[0]] + NoticesOf(body[1..])
    else NoticesOf(body[1..])
  }

  /** The notification with this id is a child of the body (its `parentNode` is set). */
  predicate IsAttached(body: seq<Child>, id: nat) {
    exists k | 0 <= k < |body| :: body[k].Notice? && body[k].id == id
  }

  /** Every notification among the children was created before the id `next`. */
  predicate IdsBelow(body: seq<Child>, next: nat) {
    forall k | 0 <= k < |body| :: body[k].Notice? ==> body[k].id < next
  }

  /** The id of the attached notification, for a body that holds at most one. */
  function AttachedId(body: seq<Child>): (r: Option<nat>)
    requires |NoticesOf(body)| <= 1
    ensures r.Some? ==> IsAttached(body, r.value)
    ensures forall id: nat :: IsAttached(body, id) ==> r == Some(id)
  {
    var notices := NoticesOf(body);
    if notices == [] then None
    else
      NoticesAreChildren(body);
      assert notices[0] in body;
      assert forall k | 0 <= k < |body| && body[k].Notice? :: body[k] == notices[0] by {
        forall k | 0 <= k < |body| && body[k].Notice? ensures body[k] == notices[0] {
          assert body[k] in notices;
        }
      }
      Some(notices[0].id)
  }

  /** In a body with at most one notification, an attached one is the only one. */
  lemma OnlyOneAttached(body: seq<Child>, id: nat)
    requires |NoticesOf(body)| <= 1 && IsAttached(body, id)
    ensures forall other: nat | IsAttached(body, other) :: other == id
  {
  }

  /** The children with the notification `id` marked as leaving (its exit styles applied). */
  function MarkExiting(body: seq<Child>, id: nat): (r: seq<Child>)
  {
    seq(|body|, k requires 0 <= k < |body| =>
      if body[k].Notice? && body[k].id == id then body[k].(exiting := true) else body[k])
  }

  /** The children with the notification `id` removed. */
  function Detach(body: seq<Child>, id: nat): (r: seq<Child>)
    ensures |r| <= |body|
    ensures forall k | 0 <= k < |r| :: !(r[k].Notice? && r[k].id == id)
  {
    if body == [] then []
    else if body[0].Notice? && body[0].id == id then Detach(body[1..], id)
    else [body[0]] + Detach(body[1..], id)
  }

  /** Every notification NoticesOf lists is a child of the body. */
  lemma {:induction false} NoticesAreChildren(body: seq<Child>)
    ensures forall k | 0 <= k < |NoticesOf(body)| :: NoticesOf(body)[k] in body
  {
    if body != [] {
      NoticesAreChildren(body[1..]);
      var r := NoticesOf(body);
      forall k | 0 <= k < |r| ensures r[k] in body {
        if body[0].Notice? && k > 0 {
          assert r[k] == NoticesOf(body[1..])[k - 1];
          assert r[k] in body[1..];
        } else if !body[0].Notice? {
          assert r[k] == NoticesOf(body[1..])[k];
          assert r[k] in body[1..];
        }
      }
    }
  }

  /** Removing the notifications keeps every other child and adds nothing. */
  lemma {:induction false} OthersOfKeeps(body: seq<Child>)
    ensures forall c :: c in OthersOf(body) <==> c in body && c.Other?
  {
    if body != [] {
      OthersOfKeeps(body[1..]);
    }
  }

  /** A body without notification children is left as it is. */
  lemma {:induction false} OthersOfNoNotice(body: seq<Child>)
    requires forall k | 0 <= k < |body| :: body[k].Other?
    ensures OthersOf(body) == body
  {
    if body != [] {
      OthersOfNoNotice(body[1..]);
    }
  }

  lemma {:induction false} OthersOfConcat(a: seq<Child>, b: seq<Child>)
    ensures OthersOf(a + b) == OthersOf(a) + OthersOf(b)
  {
    if a != [] {
      assert (a + b)[1..] == a[1..] + b;
      OthersOfConcat(a[1..], b);
    } else {
      assert a + b == b;
    }
  }

  lemma {:induction false} NoticesOfConcat(a: seq<Child>, b: seq<Child>)
    ensures NoticesOf(a + b) == NoticesOf(a) + NoticesOf(b)
  {
    if a != [] {
      assert (a + b)[1..] == a[1..] + b;
      NoticesOfConcat(a[1..], b);
    } else {
      assert a + b == b;
    }
  }

  lemma {:induction false} OthersOfOthers(body: seq<Child>)
    ensures OthersOf(OthersOf(body)) == OthersOf(body)
  {
    if body != [] {
      OthersOfOthers(body[1..]);
      if body[0].Other? {
        assert ([body[0]] + OthersOf(body[1..]))[1..] == OthersOf(body[1..]);
      }
    }
  }

  lemma {:induction false} NoticesOfNone(body: seq<Child>)
    requires forall k | 0 <= k < |body| :: body[k].Other?
    ensures NoticesOf(body) == []
  {
    if body != [] {
      NoticesOfNone(body[1..]);
    }
  }

  lemma {:induction false} NoticesOfOthers(body: seq<Child>)
    ensures NoticesOf(OthersOf(body)) == []
  {
    if body != [] {
      NoticesOfOthers(body[1..]);
      if body[0].Other? {
        assert ([body[0]] + OthersOf(body[1..]))[1..] == OthersOf(body[1..]);
      }
    }
  }

  /**
   * Showing a notification: once every notification child is removed and the new one is
   * appended, the new one is the only notification child, and the other children are
   * those of before, in the same order.
   */
  lemma ShowLeavesOnlyNew(body: seq<Child>, n: Child)
    requires n.Notice?
    ensures NoticesOf(OthersOf(body) + [n]) == [n]
    ensures OthersOf(OthersOf(body) + [n]) == OthersOf(body)
    ensures IsAttached(OthersOf(body) + [n], n.id)
    ensures forall id | id != n.id :: !IsAttached(OthersOf(body) + [n], id)
    ensures IdsBelow(OthersOf(body) + [n], n.id + 1)
  {
    var rest := OthersOf(body);
    NoticesOfConcat(rest, [n]);
    OthersOfConcat(rest, [n]);
    OthersOfOthers(body);
    NoticesOfOthers(body);
    assert [n][1..] == [];
    var shown := rest + [n];
    assert shown[|rest|] == n;
    forall k | 0 <= k < |rest| ensures shown[k].Other? {
      assert shown[k] == rest[k];
    }
  }

  /** Marking a notification as leaving keeps it attached and changes nothing else about the children. */
  lemma {:induction false} MarkExitingKeeps(body: seq<Child>, id: nat)
    ensures OthersOf(MarkExiting(body, id)) == OthersOf(body)
    ensures |NoticesOf(MarkExiting(body, id))| == |NoticesOf(body)|
    ensures forall other :: IsAttached(MarkExiting(body, id), other) <==> IsAttached(body, other)
  {
    var r := MarkExiting(body, id);
    if body != [] {
      var tail := MarkExiting(body[1..], id);
      assert r == [r[0]] + tail;
      MarkExitingKeeps(body[1..], id);
      forall other ensures IsAttached(r, other) <==> IsAttached(body, other) {
        if IsAttached(body, other) {
          var k :| 0 <= k < |body| && body[k].Notice? && body[k].id == other;
          assert r[k].Notice? && r[k].id == other;
        }
        if IsAttached(r, other) {
          var k :| 0 <= k < |r| && r[k].Notice? && r[k].id == other;
          assert body[k].Notice? && body[k].id == other;
        }
      }
    }
  }

  /** Marking applies the exit styles to the notification `id` and to no other child. */
  lemma MarkExitingMarks(body: seq<Child>, id: nat)
    ensures |MarkExiting(body, id)| == |body|
    ensures forall k | 0 <= k < |body| && body[k].Notice? && body[k].id == id ::
      MarkExiting(body, id)[k] == Notice(id, body[k].kind, body[k].message, true)
    ensures forall k | 0 <= k < |body| && !(body[k].Notice? && body[k].id == id) ::
      MarkExiting(body, id)[k] == body[k]
  {
  }

  /** Marking an absent notification as leaving changes nothing. */
  lemma MarkExitingAbsent(body: seq<Child>, id: nat)
    requires !IsAttached(body, id)
    ensures MarkExiting(body, id) == body
  {
  }

  /**
   * Detaching a notification leaves it detached, keeps the other children in order, never
   * adds a notification, and changes nothing when it was not attached.
   */
  lemma {:induction false} DetachFacts(body: seq<Child>, id: nat)
    ensures !IsAttached(Detach(body, id), id)
    ensures OthersOf(Detach(body, id)) == OthersOf(body)
    ensures |NoticesOf(Detach(body, id))| <= |NoticesOf(body)|
    ensures !IsAttached(body, id) ==> Detach(body, id) == body
  {
    var r := Detach(body, id);
    if body != [] {
      DetachFacts(body[1..], id);
      if !(body[0].Notice? && body[0].id == id) {
        assert ([body[0]] + Detach(body[1..], id))[1..] == Detach(body[1..], id);
      }
    }
  }

  /** Detaching keeps exactly the children that are not the notification `id`: none is lost and none added. */
  lemma {:induction false} DetachKeeps(body: seq<Child>, id: nat)
    ensures forall c :: c in Detach(body, id) <==> c in body && !(c.Notice? && c.id == id)
  {
    if body != [] {
      DetachKeeps(body[1..], id);
    }
  }

  /** With at most one notification, detaching the attached one leaves no notification at all. */
  lemma DetachLeavesNone(body: seq<Child>, id: nat)
    requires |NoticesOf(body)| <= 1 && IsAttached(body, id)
    ensures NoticesOf(Detach(body, id)) == []
  {
    var r := Detach(body, id);
    if NoticesOf(r) != [] {
      NoticesAreChildren(r);
      DetachKeeps(body, id);
      var c := NoticesOf(r)[0];
      assert c in r;
      var k :| 0 <= k < |body| && body[k] == c;
      OnlyOneAttached(body, id);
      assert IsAttached(body, c.id);
    }
  }

  /** Detaching keeps every remaining id below a bound that held before. */
  lemma {:induction false} DetachKeepsIdsBelow(body: seq<Child>, id: nat, next: nat)
    requires IdsBelow(body, next)
    ensures IdsBelow(Detach(body, id), next)
  {
    if body != [] {
      assert IdsBelow(body[1..], next) by {
        forall k | 0 <= k < |body| - 1 ensures body[1..][k] == body[k + 1] { }
      }
      DetachKeepsIdsBelow(body[1..], id, next);
    }
  }

  /** Detaching twice is the same as detaching once. */
  lemma DetachIdempotent(body: seq<Child>, id: nat)
    ensures Detach(Detach(body, id), id) == Detach(body, id)
  {
  }
}
