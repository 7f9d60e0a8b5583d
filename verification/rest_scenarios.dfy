/**
 * Concrete runs of the binding on the account collection the repository's
 * own tests use: the requests one write issues, the address a server filter
 * queries, and what the client passes keep and in which order.
 */
module RestScenarios {
  import opened Wrappers
  import opened Elements
  import opened Services
  import opened Filters
  import opened Sorters
  import opened KeyPathSort
  import opened Rest
  import opened RestProperties

  const Url: string := "test.schmiedmayer.com/api/accounts"

  function Account(id: Option<int>, name: string): Element {
    Element(id, map["name" := Text(name)])
  }

  /** `\Account.name`. */
  const Name: KeyPath := KeyPath("name", (e: Element) => if "name" in e.attributes then e.attributes["name"] else Text(""))

  /** `\Account.id!`, on accounts that have an id. */
  const Id: KeyPath := KeyPath("id", (e: Element) => Num(if e.id.Some? then e.id.value else 0))

  /** A binding with no strategies, no cache and nothing sent yet. */
  function Plain(local: seq<Element>): State {
    State(local, [], NewService(Url), NoFilter, NoSort, false, false, false, "", None)
  }

  /** Removing the only account and inserting its replacement at the same place. */
  function Replace(before: Element, after: Element): Difference {
    Difference([Remove(0, before, None)], [Insert(0, after, None)])
  }

  /** `Replace` is a difference from `[before]` to `[after]`. */
  lemma ReplaceValid(before: Element, after: Element)
    ensures Valid([before], [after], Replace(before, after))
  {
    var d := Replace(before, after);
    assert ApplyRemovals([before], d.removals) == Some([]) by {
      assert [before][..0] + [before][1..] == [];
    }
    assert ApplyInsertions([], d.insertions) == Some([after]) by {
      assert [][..0] + [after] + [][0..] == [after] && d.insertions[1..] == [];
    }
  }

  /** The edit pass on a replacement with the same (optional) id: one PUT of the new element, which takes the old one's place. */
  lemma ReplaceEditPass(svc: Service, before: Element, after: Element)
    requires before.id == after.id
    ensures EditRequests(svc, Replace(before, after).insertions, Replace(before, after).removals) == [PutRequest(svc, after)]
    ensures EditPassLocal([before], Replace(before, after).insertions, Replace(before, after).removals) == [after]
  {
    var d := Replace(before, after);
    assert MatchingRemovals(after, d.removals) == 1;
    assert EditOneRequests(svc, d.insertions[0], d.removals) == [PutRequest(svc, after)];
    assert d.insertions[1..] == [];
    EditAgainstLocal([before], after, d.removals);
    assert RemoveAllWithId([before], before.id) == [];
  }

  /** The empty difference takes an array to itself. */
  lemma NoChangeValid(xs: seq<Element>)
    ensures Valid(xs, xs, Difference([], [])) && Changes(Difference([], [])) == []
  {
  }

  /** The PUT of account 1 goes to `accounts/1`. */
  lemma PutOfAccountOne(e: Element)
    requires e.id == Some(1)
    ensures PutRequest(NewService(Url), e) == Request(PUT, Url + "/1", Some(e), PutSlot)
  {
    assert Decimal.IntToString(1) == "1";
  }

  /** A binding without strategies replacing its only element by one with the same id: one PUT, and the new element in its place. */
  lemma ReplaceWrite(before: Element, after: Element)
    requires before.id == after.id
    ensures && Valid([before], [after], Replace(before, after))
            && Valid(ElementEdit(Plain([before]), Replace(before, after)).local, [after], Difference([], []))
            && Write(Plain([before]), [after], Replace(before, after), Difference([], [])).log
               == [PutRequest(NewService(Url), after)]
            && Write(Plain([before]), [after], Replace(before, after), Difference([], [])).local == [after]
  {
    var s := Plain([before]);
    var d1, d2 := Replace(before, after), Difference([], []);
    ReplaceValid(before, after);
    ReplaceEditPass(s.service, before, after);
    NoChangeValid([after]);
    WriteWithoutStrategies(s, [after], d1, d2);
    assert ArrayRequests(s.service, [after], []) == [];
    assert [] + [PutRequest(s.service, after)] + [] == [PutRequest(s.service, after)];
  }

  /** Renaming the stored account 1 is one PUT to `accounts/1`, and the array holds the new version. */
  lemma EditIsOnePut(before: Element, after: Element)
    requires before.id == after.id == Some(1)
    ensures && Valid([before], [after], Replace(before, after))
            && Valid(ElementEdit(Plain([before]), Replace(before, after)).local, [after], Difference([], []))
            && Write(Plain([before]), [after], Replace(before, after), Difference([], [])).log
               == [Request(PUT, Url + "/1", Some(after), PutSlot)]
  {
    ReplaceWrite(before, after);
    PutOfAccountOne(after);
  }

  /**
   * Replacing an account that has no id yet by another one without an id:
   * the edit pass pairs them (`nil == nil`) and the PUT falls back to a POST
   * of the new account, sent from the PUT slot; no DELETE is attempted.
   */
  lemma EditWithoutIdPosts(before: Element, after: Element)
    requires before.id.None? && after.id.None?
    ensures && Valid([before], [after], Replace(before, after))
            && Valid(ElementEdit(Plain([before]), Replace(before, after)).local, [after], Difference([], []))
            && Write(Plain([before]), [after], Replace(before, after), Difference([], [])).log
               == [Request(POST, Url, Some(after), PutSlot)]
  {
    ReplaceWrite(before, after);
  }

  /** Inserting `e` into an empty array, as an unassociated change. */
  function Append(e: Element): Difference {
    Difference([], [Insert(0, e, None)])
  }

  /** `Append` is a difference from `[]` to `[e]`, which the edit pass leaves alone. */
  lemma AppendValid(svc: Service, e: Element)
    ensures Valid([], [e], Append(e))
    ensures EditRequests(svc, Append(e).insertions, []) == [] && EditPassLocal([], Append(e).insertions, []) == []
  {
    var ins := Insert(0, e, None);
    assert ApplyInsertions([], [ins]) == Some([e]) by {
      assert [][..0] + [e] + [][0..] == [e] && [ins][1..] == [];
    }
    assert MatchingRemovals(e, []) == 0;
    assert EditOneRequests(svc, ins, []) == [];
    assert EditAgainst([], e, []) == [];
  }

  /** The array pass on an append to an empty array POSTs and waits. */
  lemma AppendArrayPass(svc: Service, e: Element)
    ensures ArrayRequests(svc, [], Changes(Append(e))) == [PostRequest(svc, e, PostSlot)]
    ensures ArrayPassLocal([], Changes(Append(e))) == []
  {
    var ins := Insert(0, e, None);
    assert Changes(Append(e)) == [ins];
    InsertionOfNewIdPosts(svc, [], ins);
  }

  /** Appending to an empty binding is one POST to the collection URL; the array waits for the response. */
  lemma AppendIsOnePost(e: Element)
    ensures && Valid([], [e], Append(e))
            && ElementEdit(Plain([]), Append(e)).local == []
            && Write(Plain([]), [e], Append(e), Append(e)).log == [Request(POST, Url, Some(e), PostSlot)]
            && Write(Plain([]), [e], Append(e), Append(e)).local == []
  {
    var s := Plain([]);
    AppendValid(s.service, e);
    AppendArrayPass(s.service, e);
    WriteWithoutStrategies(s, [e], Append(e), Append(e));
    assert [] + [] + [PostRequest(s.service, e, PostSlot)] == [PostRequest(s.service, e, PostSlot)];
  }

  /** Appending `after` behind the only element `before`. */
  function AppendSecond(before: Element, after: Element): Difference {
    Difference([], [Insert(1, after, None)])
  }

  /** `AppendSecond` is a difference from `[before]` to `[before, after]`, which the edit pass leaves alone. */
  lemma AppendSecondValid(svc: Service, before: Element, after: Element)
    ensures Valid([before], [before, after], AppendSecond(before, after))
    ensures EditRequests(svc, AppendSecond(before, after).insertions, []) == []
    ensures EditPassLocal([before], AppendSecond(before, after).insertions, []) == [before]
  {
    var ins := Insert(1, after, None);
    assert ApplyInsertions([before], [ins]) == Some([before, after]) by {
      assert [before][..1] + [after] + [before][1..] == [before, after] && [ins][1..] == [];
    }
    assert MatchingRemovals(after, []) == 0;
    assert EditOneRequests(svc, ins, []) == [];
    assert EditAgainst([before], after, []) == [before];
  }

  /** The array pass on appending an element whose id is already stored: one PUT, and the new element replaces the stored one. */
  lemma AppendKnownArrayPass(svc: Service, before: Element, after: Element)
    requires before.id == after.id
    ensures ArrayRequests(svc, [before], Changes(AppendSecond(before, after))) == [PutRequest(svc, after)]
    ensures ArrayPassLocal([before], Changes(AppendSecond(before, after))) == [after]
  {
    var ins := Insert(1, after, None);
    assert Changes(AppendSecond(before, after)) == [ins];
    InsertionOfKnownIdPuts(svc, [before], ins);
    assert RemoveAllWithId([before], before.id) == [];
  }

  /**
   * Appending a second account with the id of the stored account 1 is one
   * PUT to `accounts/1`, and the stored account is replaced, not joined: the
   * array holds one element, not the two that were assigned.
   */
  lemma AppendKnownIdPuts(before: Element, after: Element)
    requires before.id == after.id == Some(1)
    ensures && Valid([before], [before, after], AppendSecond(before, after))
            && ElementEdit(Plain([before]), AppendSecond(before, after)).local == [before]
            && Write(Plain([before]), [before, after], AppendSecond(before, after), AppendSecond(before, after)).log
               == [Request(PUT, Url + "/1", Some(after), PutSlot)]
            && Write(Plain([before]), [before, after], AppendSecond(before, after), AppendSecond(before, after)).local == [after]
  {
    var s := Plain([before]);
    AppendSecondValid(s.service, before, after);
    AppendKnownArrayPass(s.service, before, after);
    WriteWithoutStrategies(s, [before, after], AppendSecond(before, after), AppendSecond(before, after));
    PutOfAccountOne(after);
    assert [] + [] + [PutRequest(s.service, after)] == [PutRequest(s.service, after)];
  }

  /** Removing the only element, which has id 1. */
  function RemoveOnly(e: Element): Difference {
    Difference([Remove(0, e, None)], [])
  }

  /** `RemoveOnly` is a difference from `[e]` to `[]`, which the edit pass leaves alone. */
  lemma RemoveOnlyValid(svc: Service, e: Element)
    ensures Valid([e], [], RemoveOnly(e))
    ensures EditRequests(svc, [], RemoveOnly(e).removals) == [] && EditPassLocal([e], [], RemoveOnly(e).removals) == [e]
  {
    assert ApplyRemovals([e], RemoveOnly(e).removals) == Some([]) by {
      assert [e][..0] + [e][1..] == [];
    }
  }

  /** The array pass on removing the only element: one DELETE, and the array is empty. */
  lemma RemoveOnlyArrayPass(svc: Service, e: Element)
    requires e.id.Some?
    ensures RemovalsHaveIds(Changes(RemoveOnly(e)))
    ensures ArrayRequests(svc, [e], Changes(RemoveOnly(e))) == [DeleteRequest(svc, e)]
    ensures ArrayPassLocal([e], Changes(RemoveOnly(e))) == []
  {
    var c := Remove(0, e, None);
    assert Changes(RemoveOnly(e)) == [c];
    RemovalDeletes(svc, [e], c);
    assert RemoveAllWithId([e], e.id) == [];
  }

  /** The DELETE of account 1 goes to `accounts/1`. */
  lemma DeleteOfAccountOne(e: Element)
    requires e.id == Some(1)
    ensures DeleteRequest(NewService(Url), e) == Request(DELETE, Url + "/1", None, DeleteSlot)
  {
    assert Decimal.IntToString(1) == "1";
  }

  /** Deleting the stored account 1 is one DELETE to `accounts/1`, and the array is empty at once. */
  lemma RemoveIsOneDelete(e: Element)
    requires e.id == Some(1)
    ensures && Valid([e], [], RemoveOnly(e))
            && ElementEdit(Plain([e]), RemoveOnly(e)).local == [e]
            && Write(Plain([e]), [], RemoveOnly(e), RemoveOnly(e)).log == [Request(DELETE, Url + "/1", None, DeleteSlot)]
            && Write(Plain([e]), [], RemoveOnly(e), RemoveOnly(e)).local == []
  {
    var s := Plain([e]);
    RemoveOnlyValid(s.service, e);
    RemoveOnlyArrayPass(s.service, e);
    WriteWithoutStrategies(s, [], RemoveOnly(e), RemoveOnly(e));
    DeleteOfAccountOne(e);
    assert [] + [] + [DeleteRequest(s.service, e)] == [DeleteRequest(s.service, e)];
  }

  /** Replacing the only element by an edited version and adding a second element after it. */
  function EditAndAdd(before: Element, edited: Element, added: Element): Difference {
    Difference([Remove(0, before, None)], [Insert(0, edited, None), Insert(1, added, None)])
  }

  /** The second difference of that write: the added element, after the edited one. */
  function AddSecond(added: Element): Difference {
    Difference([], [Insert(1, added, None)])
  }

  /** Both differences of the simultaneous write are valid. */
  lemma EditAndAddValid(before: Element, edited: Element, added: Element)
    ensures Valid([before], [edited, added], EditAndAdd(before, edited, added))
    ensures Valid([edited], [edited, added], AddSecond(added))
  {
    var d := EditAndAdd(before, edited, added);
    assert ApplyRemovals([before], d.removals) == Some([]) by {
      assert [before][..0] + [before][1..] == [];
    }
    assert ApplyInsertions([edited], [Insert(1, added, None)]) == Some([edited, added]) by {
      assert [edited][..1] + [added] + [edited][1..] == [edited, added];
    }
    assert ApplyInsertions([], d.insertions) == Some([edited, added]) by {
      assert [][..0] + [edited] + [][0..] == [edited];
      assert d.insertions[1..] == [Insert(1, added, None)];
    }
  }

  /** The edit pass of the simultaneous write issues one PUT, of the edited element. */
  lemma EditAndAddEditRequests(svc: Service, before: Element, edited: Element, added: Element)
    requires before.id == edited.id && before.id.Some? && added.id.None?
    ensures EditRequests(svc, EditAndAdd(before, edited, added).insertions, EditAndAdd(before, edited, added).removals) == [PutRequest(svc, edited)]
  {
    var d := EditAndAdd(before, edited, added);
    var second := d.insertions[1..];
    assert second == [Insert(1, added, None)] && second[1..] == [];
    assert MatchingRemovals(edited, d.removals) == 1;
    assert MatchingRemovals(added, d.removals) == 0;
    assert EditOneRequests(svc, d.insertions[0], d.removals) == [PutRequest(svc, edited)];
    assert EditRequests(svc, second, d.removals) == [];
  }

  /** In the edit pass of the simultaneous write the edited element takes the old one's place and the added element is left alone. */
  lemma EditAndAddEditLocal(before: Element, edited: Element, added: Element)
    requires before.id == edited.id && before.id.Some? && added.id.None?
    ensures EditPassLocal([before], EditAndAdd(before, edited, added).insertions, EditAndAdd(before, edited, added).removals) == [edited]
  {
    var d := EditAndAdd(before, edited, added);
    var second := d.insertions[1..];
    assert second == [Insert(1, added, None)] && second[1..] == [];
    EditAgainstLocal([before], edited, d.removals);
    assert RemoveAllWithId([before], before.id) == [];
    assert EditAgainst([before], edited, d.removals) == [edited];
    EditAgainstLocal([edited], added, d.removals);
    assert EditAgainst([edited], added, d.removals) == [edited];
    assert EditPassLocal([edited], second, d.removals) == EditPassLocal([edited], [], d.removals);
  }

  /** The array pass of the simultaneous write: the added element has no id, so it is POSTed and the array waits. */
  lemma EditAndAddArrayPass(svc: Service, edited: Element, added: Element)
    requires edited.id.Some? && added.id.None?
    ensures ArrayRequests(svc, [edited], Changes(AddSecond(added))) == [PostRequest(svc, added, PostSlot)]
    ensures ArrayPassLocal([edited], Changes(AddSecond(added))) == [edited]
  {
    var c := Insert(1, added, None);
    assert Changes(AddSecond(added)) == [c];
    InsertionOfNewIdPosts(svc, [edited], c);
  }

  /** The simultaneous write without strategies: the edit pass's PUT, then the array pass's POST. */
  lemma EditAndAddWrite(before: Element, edited: Element, added: Element)
    requires before.id == edited.id && before.id.Some? && added.id.None?
    ensures && Valid([before], [edited, added], EditAndAdd(before, edited, added))
            && ElementEdit(Plain([before]), EditAndAdd(before, edited, added)).local == [edited]
            && Valid([edited], [edited, added], AddSecond(added))
            && Write(Plain([before]), [edited, added], EditAndAdd(before, edited, added), AddSecond(added)).log
               == [PutRequest(NewService(Url), edited), PostRequest(NewService(Url), added, PostSlot)]
            && Write(Plain([before]), [edited, added], EditAndAdd(before, edited, added), AddSecond(added)).local == [edited]
  {
    var s := Plain([before]);
    EditAndAddValid(before, edited, added);
    EditAndAddEditRequests(s.service, before, edited, added);
    EditAndAddEditLocal(before, edited, added);
    EditAndAddArrayPass(s.service, edited, added);
    WriteWithoutStrategies(s, [edited, added], EditAndAdd(before, edited, added), AddSecond(added));
    assert [] + [PutRequest(s.service, edited)] + [PostRequest(s.service, added, PostSlot)]
        == [PutRequest(s.service, edited), PostRequest(s.service, added, PostSlot)];
  }

  /**
   * Editing account 1 and appending a new account in one assignment: a PUT
   * to `accounts/1` and then a POST of the new account; the edited account is
   * in place at once and the new one waits for the POST's response.
   */
  lemma EditAndAddIsPutThenPost(before: Element, edited: Element, added: Element)
    requires before.id == edited.id == Some(1) && added.id.None?
    ensures && Valid([before], [edited, added], EditAndAdd(before, edited, added))
            && ElementEdit(Plain([before]), EditAndAdd(before, edited, added)).local == [edited]
            && Valid([edited], [edited, added], AddSecond(added))
            && Write(Plain([before]), [edited, added], EditAndAdd(before, edited, added), AddSecond(added)).log
               == [Request(PUT, Url + "/1", Some(edited), PutSlot), Request(POST, Url, Some(added), PostSlot)]
            && Write(Plain([before]), [edited, added], EditAndAdd(before, edited, added), AddSecond(added)).local == [edited]
  {
    EditAndAddWrite(before, edited, added);
    PutOfAccountOne(edited);
  }

  /** Paul's account moved from the end in front of Max's: one removal and one insertion that form a move. */
  function MovePaul(paul: Element): Difference {
    Difference([Remove(2, paul, Some(1))], [Insert(1, paul, Some(2))])
  }

  /** The move's removal takes Paul's account off the end. */
  lemma MovePaulRemovals(tom: Element, max: Element, paul: Element)
    ensures ApplyRemovals([tom, max, paul], MovePaul(paul).removals) == Some([tom, max])
  {
    var rs := MovePaul(paul).removals;
    assert rs[..0] == [];
    assert [tom, max, paul][..2] + [tom, max, paul][3..] == [tom, max];
  }

  /** The move's insertion puts Paul's account between Tom's and Max's. */
  lemma MovePaulInsertions(tom: Element, max: Element, paul: Element)
    ensures ApplyInsertions([tom, max], MovePaul(paul).insertions) == Some([tom, paul, max])
  {
    var ins := MovePaul(paul).insertions;
    assert ins[1..] == [];
    assert [tom, max][..1] + [paul] + [tom, max][1..] == [tom, paul, max];
  }

  /** The move's two halves name each other. */
  lemma MovePaulShape(paul: Element)
    ensures WellFormed(MovePaul(paul)) && AssociationsMatch(MovePaul(paul))
  {
    var d := MovePaul(paul);
    assert Paired(d.removals[0], d.insertions[0]);
  }

  /** The move is iterated removal first. */
  lemma MovePaulChanges(paul: Element)
    ensures Changes(MovePaul(paul)) == [Remove(2, paul, Some(1)), Insert(1, paul, Some(2))]
  {
    var rs := MovePaul(paul).removals;
    assert rs[1..] == [];
    assert Reverse(rs) == Reverse(rs[1..]) + [rs[0]] == [rs[0]];
  }

  /** `MovePaul` takes Tom, Max, Paul to Tom, Paul, Max. */
  lemma MovePaulValid(tom: Element, max: Element, paul: Element)
    ensures Valid([tom, max, paul], [tom, paul, max], MovePaul(paul))
  {
    MovePaulRemovals(tom, max, paul);
    MovePaulInsertions(tom, max, paul);
    MovePaulShape(paul);
  }

  /** Both halves of `MovePaul` belong to the move. */
  lemma MovePaulIsReorder(paul: Element)
    ensures PureReorder(MovePaul(paul)) && RemovalsHaveIds(Changes(MovePaul(paul)))
  {
    MovePaulChanges(paul);
  }

  /** The edit pass of the move leaves the array as it was. */
  lemma MovePaulEditPass(tom: Element, max: Element, paul: Element)
    ensures ElementEdit(Plain([tom, max, paul]), MovePaul(paul)).local == [tom, max, paul]
  {
    var d := MovePaul(paul);
    var xs := [tom, max, paul];
    assert d.insertions[0].associatedWith.Some? && d.insertions[1..] == [];
    assert EditPassLocal(xs, d.insertions, d.removals) == EditPassLocal(xs, d.insertions[1..], d.removals);
  }

  /** The array pass of the move leaves the array as it was. */
  lemma MovePaulArrayPass(tom: Element, max: Element, paul: Element)
    ensures ArrayPassLocal([tom, max, paul], Changes(MovePaul(paul))) == [tom, max, paul]
  {
    var cs := Changes(MovePaul(paul));
    var xs := [tom, max, paul];
    MovePaulChanges(paul);
    assert cs[1..][1..] == [];
    assert ArrayLocal(xs, cs[0]) == xs && ArrayLocal(xs, cs[1]) == xs;
    assert ArrayPassLocal(xs, cs) == ArrayPassLocal(xs, cs[1..]) == ArrayPassLocal(xs, cs[1..][1..]);
  }

  /**
   * Assigning the stored accounts Tom, Max and Paul in the order Tom, Paul,
   * Max sends nothing. The local array keeps the old order: only changes
   * that are not moves touch it.
   */
  lemma ReorderSendsNothing(tom: Element, max: Element, paul: Element)
    ensures && Valid([tom, max, paul], [tom, paul, max], MovePaul(paul))
            && Valid(ElementEdit(Plain([tom, max, paul]), MovePaul(paul)).local, [tom, paul, max], MovePaul(paul))
            && Write(Plain([tom, max, paul]), [tom, paul, max], MovePaul(paul), MovePaul(paul)).log == []
            && Write(Plain([tom, max, paul]), [tom, paul, max], MovePaul(paul), MovePaul(paul)).local == [tom, max, paul]
  {
    var s := Plain([tom, max, paul]);
    var d := MovePaul(paul);
    MovePaulValid(tom, max, paul);
    MovePaulIsReorder(paul);
    MovePaulEditPass(tom, max, paul);
    MovePaulArrayPass(tom, max, paul);
    PureReorderIssuesOnlyGets(s, [tom, paul, max], d, d);
    WriteWithoutStrategies(s, [tom, paul, max], d, d);
  }

  /** Two accounts inserted into an empty array in one assignment. */
  function AppendTwo(a: Element, b: Element): Difference {
    Difference([], [Insert(0, a, None), Insert(1, b, None)])
  }

  /** Without removals the edit pass changes nothing. */
  lemma {:induction false} EditPassWithoutRemovals(local: seq<Element>, ins: seq<Change>)
    ensures EditPassLocal(local, ins, []) == local
    decreases |ins|
  {
    if |ins| > 0 {
      EditPassWithoutRemovals(local, ins[1..]);
    }
  }

  /** `AppendTwo` inserts `a`, then `b`. */
  lemma AppendTwoInsertions(a: Element, b: Element)
    ensures ApplyInsertions([], AppendTwo(a, b).insertions) == Some([a, b])
  {
    var ins := AppendTwo(a, b).insertions;
    assert [][..0] + [a] + [][0..] == [a];
    assert ApplyInsertions([], ins) == ApplyInsertions([a], ins[1..]);
    assert ins[1..] == [Insert(1, b, None)] && ins[1..][1..] == [];
    assert [a][..1] + [b] + [a][1..] == [a, b];
    assert ApplyInsertions([a], ins[1..]) == ApplyInsertions([a, b], []);
  }

  /** `AppendTwo` holds two unassociated insertions at ascending offsets. */
  lemma AppendTwoShape(a: Element, b: Element)
    ensures WellFormed(AppendTwo(a, b)) && AssociationsMatch(AppendTwo(a, b))
  {
  }

  /** `AppendTwo` is a difference from `[]` to `[a, b]`, which the edit pass leaves alone. */
  lemma AppendTwoValid(svc: Service, a: Element, b: Element)
    ensures Valid([], [a, b], AppendTwo(a, b))
    ensures EditRequests(svc, AppendTwo(a, b).insertions, []) == []
    ensures EditPassLocal([], AppendTwo(a, b).insertions, []) == []
  {
    AppendTwoShape(a, b);
    assert ApplyRemovals([], AppendTwo(a, b).removals) == Some([]);
    AppendTwoInsertions(a, b);
    EditRequestsEmpty(svc, AppendTwo(a, b).insertions, []);
    EditPassWithoutRemovals([], AppendTwo(a, b).insertions);
  }

  /** An unassociated insertion into an empty array is a POST, and the array stays empty. */
  lemma PostIntoEmpty(svc: Service, c: Change, rest: seq<Change>)
    requires c.Insert? && c.associatedWith.None? && RemovalsHaveIds([c] + rest)
    ensures RemovalsHaveIds(rest)
    ensures ArrayRequests(svc, [], [c] + rest) == [PostRequest(svc, c.element, PostSlot)] + ArrayRequests(svc, [], rest)
    ensures ArrayPassLocal([], [c] + rest) == ArrayPassLocal([], rest)
  {
    TailRemovalsHaveIds([c] + rest);
    assert ([c] + rest)[1..] == rest;
    InsertionOfNewIdPosts(svc, [], c);
  }

  /** The array pass of that assignment: a POST for each, from the POST slot, and the array waits. */
  lemma AppendTwoArrayPass(svc: Service, a: Element, b: Element)
    ensures ArrayRequests(svc, [], Changes(AppendTwo(a, b))) == [PostRequest(svc, a, PostSlot), PostRequest(svc, b, PostSlot)]
    ensures ArrayPassLocal([], Changes(AppendTwo(a, b))) == []
  {
    var ca, cb := Insert(0, a, None), Insert(1, b, None);
    assert Changes(AppendTwo(a, b)) == [ca] + [cb];
    assert [cb] == [cb] + [];
    PostIntoEmpty(svc, ca, [cb]);
    PostIntoEmpty(svc, cb, []);
  }

  /** Inserting two accounts in one assignment sends two POSTs, and the array waits. */
  lemma TwoPostsWrite(a: Element, b: Element)
    ensures && Valid([], [a, b], AppendTwo(a, b))
            && ElementEdit(Plain([]), AppendTwo(a, b)).local == []
            && Write(Plain([]), [a, b], AppendTwo(a, b), AppendTwo(a, b)).log
               == [Request(POST, Url, Some(a), PostSlot), Request(POST, Url, Some(b), PostSlot)]
            && Write(Plain([]), [a, b], AppendTwo(a, b), AppendTwo(a, b)).local == []
  {
    var s := Plain([]);
    AppendTwoValid(s.service, a, b);
    AppendTwoArrayPass(s.service, a, b);
    WriteWithoutStrategies(s, [a, b], AppendTwo(a, b), AppendTwo(a, b));
    assert [] + [] + [PostRequest(s.service, a, PostSlot), PostRequest(s.service, b, PostSlot)]
        == [PostRequest(s.service, a, PostSlot), PostRequest(s.service, b, PostSlot)];
  }

  /** Of two POSTs from the same slot only the second is live: the first response changes nothing. */
  lemma SecondPostWins(s: State, ra: Element, rb: Element)
    requires |s.log| == 2 && s.log[0].verb == POST && s.log[1].verb == POST && s.log[0].slot == s.log[1].slot
    ensures !Live(s.log, 0) && Live(s.log, 1)
    ensures PostCompleted(s, 0, ra) == s
    ensures PostCompleted(s, 1, rb).local == s.local + [rb]
  {
    LatestIsLive(s.log);
  }

  /**
   * Inserting two accounts in one assignment sends two POSTs from the same
   * slot, so the first is cancelled: only the second response reaches the
   * array, and the first account is not added.
   */
  lemma TwoPostsKeepTheLast(a: Element, b: Element, ra: Element, rb: Element)
    ensures && Valid([], [a, b], AppendTwo(a, b))
            && ElementEdit(Plain([]), AppendTwo(a, b)).local == []
            && var w := Write(Plain([]), [a, b], AppendTwo(a, b), AppendTwo(a, b));
               && w.log == [Request(POST, Url, Some(a), PostSlot), Request(POST, Url, Some(b), PostSlot)]
               && !Live(w.log, 0) && Live(w.log, 1)
               && PostCompleted(w, 0, ra).local == []
               && PostCompleted(w, 1, rb).local == [rb]
  {
    TwoPostsWrite(a, b);
    SecondPostWins(Write(Plain([]), [a, b], AppendTwo(a, b), AppendTwo(a, b)), ra, rb);
  }

  const PaulItem: QueryItem := QueryItem("name[exists]", "Paul")
  const ByNameItem: QueryItem := QueryItem("sort_by", "+name")

  /** The default translator turns `exists` on the name with "Paul" into `name[exists]=Paul`. */
  lemma ExistsPaulItem(svc: Service)
    requires svc.filterServerStrategy.None?
    ensures ServerFilterItems(svc, ServerFilter([Exists(Name, Text("Paul"))], None)) == [PaulItem]
  {
    assert "name" + "[" + "exists" + "]" == "name[exists]";
  }

  /** The default translator turns an ascending sort on the name into `sort_by=+name`. */
  lemma ByNameItemOf(svc: Service)
    requires svc.sortServerStrategy.None?
    ensures ServerSortItems(svc, ServerSort(Sorter(Asc, Name), None)) == [ByNameItem]
  {
    assert "+" + "name" == "+name";
  }

  /** A server `exists` filter on the name queries `accounts?name[exists]=Paul`. */
  lemma ServerFilterAddress()
    ensures var r := Init(NewService(Url), ServerFilter([Exists(Name, Text("Paul"))], None), NoSort, false, "", []);
            ComposedAddress(r.service) == Url + "?" + "name[exists]=Paul"
  {
    var svc := NewService(Url);
    ExistsPaulItem(svc);
    InitQuery(svc, ServerFilter([Exists(Name, Text("Paul"))], None), NoSort, false, "", []);
    assert [] + [PaulItem] + [] == [PaulItem];
    assert QueryString([PaulItem]) == "name[exists]=Paul";
  }

  /** The query a server filter and a server sort build: the filter item, then the `sort_by` item. */
  lemma FilterAndSortQuery()
    ensures Init(NewService(Url), ServerFilter([Exists(Name, Text("Paul"))], None),
                 ServerSort(Sorter(Asc, Name), None), false, "", []).service.urlComponents
         == UrlComponents(Url, Some([PaulItem, ByNameItem]))
  {
    var svc := NewService(Url);
    ExistsPaulItem(svc);
    ByNameItemOf(svc);
    InitQuery(svc, ServerFilter([Exists(Name, Text("Paul"))], None), ServerSort(Sorter(Asc, Name), None), false, "", []);
    assert [] + [PaulItem] + [ByNameItem] == [PaulItem, ByNameItem];
  }

  /** The two items joined into a query string. */
  lemma FilterAndSortQueryString()
    ensures QueryString([PaulItem, ByNameItem]) == "name[exists]=Paul&sort_by=+name"
  {
    var items := [QueryItem("name[exists]", "Paul"), QueryItem("sort_by", "+name")];
    assert items == [PaulItem, ByNameItem];
    assert items[1..] == [QueryItem("sort_by", "+name")];
  }

  /** A service holding exactly those two items is addressed by the base URL, `?` and that query string. */
  lemma FilterAndSortAddress(svc: Service)
    requires svc.urlComponents == UrlComponents(Url, Some([PaulItem, ByNameItem]))
    ensures ComposedAddress(svc) == Url + "?" + "name[exists]=Paul&sort_by=+name"
  {
    FilterAndSortQueryString();
  }

  /** With a server sort as well, the `sort_by` item follows the filter item. */
  lemma ServerFilterAndSortAddress()
    ensures var r := Init(NewService(Url), ServerFilter([Exists(Name, Text("Paul"))], None),
                          ServerSort(Sorter(Asc, Name), None), false, "", []);
            ComposedAddress(r.service) == Url + "?" + "name[exists]=Paul&sort_by=+name"
  {
    FilterAndSortQuery();
    var r := Init(NewService(Url), ServerFilter([Exists(Name, Text("Paul"))], None),
                  ServerSort(Sorter(Asc, Name), None), false, "", []);
    FilterAndSortAddress(r.service);
  }

  // ---------------------------------------------------------------------------
  // Which translator builds the query

  /** The tests' colon filter translator: `property=operation:value`. */
  function ColonFilter(property: string, operation: string, value: string): QueryItem {
    QueryItem(property, operation + ":" + value)
  }

  /** The tests' round-bracket filter translator: `property(operation)=value`. */
  function RoundBracketsFilter(property: string, operation: string, value: string): QueryItem {
    QueryItem(property + "(" + operation + ")", value)
  }

  /** The tests' dot sort translator: `sort_by=property.asc` or `sort_by=property.desc`. */
  function DotSort(operation: string, property: string): QueryItem {
    if operation == "asc" then QueryItem("sort_by", property + ".asc") else QueryItem("sort_by", property + ".desc")
  }

  /** The tests' round-bracket sort translator: `sort_by=asc(property)` or `sort_by=desc(property)`. */
  function RoundBracketsSort(operation: string, property: string): QueryItem {
    if operation == "asc" then QueryItem("sort_by", "asc(" + property + ")") else QueryItem("sort_by", "desc(" + property + ")")
  }

  /** The strategy the filter priority tests use: `exists` on the name with "Paul". */
  function ExistsPaul(own: Option<FilterTranslator>): FilterStrategy {
    ServerFilter([Exists(Name, Text("Paul"))], own)
  }

  /** The strategy the sort priority tests use: ascending on the name. */
  function ByName(own: Option<SortTranslator>): SortStrategy {
    ServerSort(Sorter(Asc, Name), own)
  }

  /** A service holding one query item is addressed by the base URL, `?` and `name=value`. */
  lemma OneItemAddress(svc: Service, item: QueryItem)
    requires svc.urlComponents == UrlComponents(Url, Some([item]))
    ensures ComposedAddress(svc) == Url + "?" + item.name + "=" + item.value
  {
    assert QueryString([item]) == item.name + "=" + item.value;
  }

  /** `exists` on the name with "Paul", through a filter translator. */
  lemma ExistsPaulItemBy(svc: Service, own: Option<FilterTranslator>, t: FilterTranslator)
    requires FilterTranslatorFor(own, svc) == t
    ensures ServerFilterItems(svc, ExistsPaul(own)) == [t("name", "exists", "Paul")]
  {
    var ops := [Exists(Name, Text("Paul"))];
    assert OperationName(ops[0]) == "exists" && Describe(ops[0].value) == "Paul";
  }

  /**
   * Construction with a server filter alone whose one item is `item`: two
   * GETs, both to the collection address followed by that item.
   */
  lemma FilterOnlyInit(svc: Service, fs: FilterStrategy, item: QueryItem)
    requires svc.url == Url && svc.urlComponents == UrlComponents(Url, None)
    requires fs.ServerFilter? && ServerFilterItems(svc, fs) == [item]
    ensures var r := Init(svc, fs, NoSort, false, "", []);
            var get := Request(GET, Url + "?" + item.name + "=" + item.value, None, GetSlot);
            r.log == [get, get]
  {
    var r := Init(svc, fs, NoSort, false, "", []);
    InitQuery(svc, fs, NoSort, false, "", []);
    InitRequests(svc, fs, NoSort, false, "", []);
    assert [] + [item] + [] == [item];
    assert r.service.urlComponents == UrlComponents(Url, Some([item]));
    OneItemAddress(r.service, item);
    assert r.log[0] == GetRequest(r.service) && r.log[1] == GetRequest(r.service);
  }

  /**
   * Construction with a server sort alone whose item is `item`: two GETs,
   * both to the collection address followed by that item.
   */
  lemma SortOnlyInit(svc: Service, ss: SortStrategy, item: QueryItem)
    requires svc.url == Url && svc.urlComponents == UrlComponents(Url, None)
    requires ss.ServerSort? && ServerSortItems(svc, ss) == [item]
    ensures var r := Init(svc, NoFilter, ss, false, "", []);
            var get := Request(GET, Url + "?" + item.name + "=" + item.value, None, GetSlot);
            r.log == [get, get]
  {
    var r := Init(svc, NoFilter, ss, false, "", []);
    InitQuery(svc, NoFilter, ss, false, "", []);
    InitRequests(svc, NoFilter, ss, false, "", []);
    assert [] + [] + [item] == [item];
    assert r.service.urlComponents == UrlComponents(Url, Some([item]));
    OneItemAddress(r.service, item);
    assert r.log[1] == GetRequest(r.service) && r.log[0] == r.log[1];
  }

  /** The strategy's colon translator on a plain service: `accounts?name=exists:Paul`, sent twice. */
  lemma FilterStrategyTranslatorUsed()
    ensures var get := Request(GET, Url + "?name=exists:Paul", None, GetSlot);
            Init(NewService(Url), ExistsPaul(Some(ColonFilter)), NoSort, false, "", []).log == [get, get]
  {
    var item := QueryItem("name", "exists:Paul");
    ExistsPaulItemBy(NewService(Url), Some(ColonFilter), ColonFilter);
    assert ColonFilter("name", "exists", "Paul") == item;
    assert Url + "?" + item.name + "=" + item.value == Url + "?name=exists:Paul";
    FilterOnlyInit(NewService(Url), ExistsPaul(Some(ColonFilter)), item);
  }

  /** The service's colon translator when the strategy has none: `accounts?name=exists:Paul`, sent twice. */
  lemma FilterServiceTranslatorUsed()
    ensures var get := Request(GET, Url + "?name=exists:Paul", None, GetSlot);
            Init(NewService(Url, Some(ColonFilter)), ExistsPaul(None), NoSort, false, "", []).log == [get, get]
  {
    var item := QueryItem("name", "exists:Paul");
    ExistsPaulItemBy(NewService(Url, Some(ColonFilter)), None, ColonFilter);
    assert ColonFilter("name", "exists", "Paul") == item;
    assert Url + "?" + item.name + "=" + item.value == Url + "?name=exists:Paul";
    FilterOnlyInit(NewService(Url, Some(ColonFilter)), ExistsPaul(None), item);
  }

  /** The strategy's round-bracket translator wins over the service's colon one: `accounts?name(exists)=Paul`, sent twice. */
  lemma FilterStrategyTranslatorWins()
    ensures var get := Request(GET, Url + "?name(exists)=Paul", None, GetSlot);
            Init(NewService(Url, Some(ColonFilter)), ExistsPaul(Some(RoundBracketsFilter)), NoSort, false, "", []).log
            == [get, get]
  {
    var item := QueryItem("name(exists)", "Paul");
    ExistsPaulItemBy(NewService(Url, Some(ColonFilter)), Some(RoundBracketsFilter), RoundBracketsFilter);
    assert RoundBracketsFilter("name", "exists", "Paul") == item;
    assert Url + "?" + item.name + "=" + item.value == Url + "?name(exists)=Paul";
    FilterOnlyInit(NewService(Url, Some(ColonFilter)), ExistsPaul(Some(RoundBracketsFilter)), item);
  }

  /** The strategy's dot translator on a plain service: `accounts?sort_by=name.asc`, sent twice. */
  lemma SortStrategyTranslatorUsed()
    ensures var get := Request(GET, Url + "?sort_by=name.asc", None, GetSlot);
            Init(NewService(Url), NoFilter, ByName(Some(DotSort)), false, "", []).log == [get, get]
  {
    var item := QueryItem("sort_by", "name.asc");
    assert DotSort("asc", "name") == item;
    assert Url + "?" + item.name + "=" + item.value == Url + "?sort_by=name.asc";
    SortOnlyInit(NewService(Url), ByName(Some(DotSort)), item);
  }

  /** The service's dot translator when the strategy has none: `accounts?sort_by=name.asc`, sent twice. */
  lemma SortServiceTranslatorUsed()
    ensures var get := Request(GET, Url + "?sort_by=name.asc", None, GetSlot);
            Init(NewService(Url, None, Some(DotSort)), NoFilter, ByName(None), false, "", []).log == [get, get]
  {
    var item := QueryItem("sort_by", "name.asc");
    assert DotSort("asc", "name") == item;
    assert Url + "?" + item.name + "=" + item.value == Url + "?sort_by=name.asc";
    SortOnlyInit(NewService(Url, None, Some(DotSort)), ByName(None), item);
  }

  /** The strategy's round-bracket translator wins over the service's dot one: `accounts?sort_by=asc(name)`, sent twice. */
  lemma SortStrategyTranslatorWins()
    ensures var get := Request(GET, Url + "?sort_by=asc(name)", None, GetSlot);
            Init(NewService(Url, None, Some(DotSort)), NoFilter, ByName(Some(RoundBracketsSort)), false, "", []).log
            == [get, get]
  {
    var item := QueryItem("sort_by", "asc(name)");
    assert RoundBracketsSort("asc", "name") == item;
    assert Url + "?" + item.name + "=" + item.value == Url + "?sort_by=asc(name)";
    SortOnlyInit(NewService(Url, None, Some(DotSort)), ByName(Some(RoundBracketsSort)), item);
  }

  /** Keeping ids between 1 and 2 out of accounts 1, 2 and 3 leaves the first two. */
  lemma IdRangeKeepsTwo()
    ensures var xs := [Account(Some(1), "Tom"), Account(Some(2), "Max"), Account(Some(3), "Paul")];
            ApplyClientFilter(xs, [Lte(Id, Num(2)), Gte(Id, Num(1))]) == xs[..2]
  {
    var xs := [Account(Some(1), "Tom"), Account(Some(2), "Max"), Account(Some(3), "Paul")];
    var ops := [Lte(Id, Num(2)), Gte(Id, Num(1))];
    ClientFilterIsConjunction(xs, ops);
    assert SatisfiesAll(xs[0], ops) && SatisfiesAll(xs[1], ops);
    assert !Holds(ops[0], xs[2]);
    assert KeepAll(xs[2..], ops) == [];
    assert KeepAll(xs, ops) == [xs[0], xs[1]];
  }

  /** An `exists` filter on "Paul" drops Tom. */
  lemma ExistsDropsOthers()
    ensures ApplyClientFilter([Account(Some(1), "Tom")], [Exists(Name, Text("Paul"))]) == []
  {
    assert Text("Tom") != Text("Paul");
  }

  /** A client filter keeping only Paul, right after Tom's account was POSTed (before its response). */
  function TomPosted(): State {
    State([], [Request(POST, Url, Some(Account(None, "Tom")), PostSlot)], NewService(Url),
          ClientFilter([Exists(Name, Text("Paul"))]), NoSort, false, false, false, "", None)
  }

  /**
   * As written, the POST response is appended after `filter()` has run, so
   * Tom's account is in the array although it fails the client filter.
   */
  lemma PostResponseSkipsClientFilter()
    ensures var tom := Account(Some(1), "Tom");
            && PostCompleted(TomPosted(), 0, tom).local == [tom]
            && !SatisfiesAll(tom, FilterOperations(TomPosted().filterStrategy))
  {
    var tom := Account(Some(1), "Tom");
    var ops := FilterOperations(TomPosted().filterStrategy);
    assert ops == [Exists(Name, Text("Paul"))];
    assert Name.get(tom) == Text("Tom") != Text("Paul");
    assert !Holds(ops[0], tom);
  }

  /** With the corrected completion the array stays empty, as the client filter demands. */
  lemma PostResponseKeptFiltersTom()
    ensures PostCompletedKept(TomPosted(), 0, Account(Some(1), "Tom")).local == []
  {
    var tom := Account(Some(1), "Tom");
    var op := Exists(Name, Text("Paul"));
    assert Name.get(tom) == Text("Tom") != Text("Paul");
    assert Keep([tom], op) == [];
    assert ApplyClientFilter([tom], [op]) == [];
    assert TomPosted().local + [tom] == [tom];
  }

  /** A binding whose client filter keeps only Paul, right after construction: one GET is out. */
  function PaulOnlyBinding(): State {
    Init(NewService(Url), ClientFilter([Exists(Name, Text("Paul"))]), NoSort, false, "", [])
  }

  /**
   * As written, the GET response is assigned without the setter, so Tom's
   * account is in the array although it fails the client filter.
   */
  lemma GetResponseSkipsClientFilter()
    ensures var s := PaulOnlyBinding();
            var tom := Account(Some(1), "Tom");
            && s.log == [GetRequest(NewService(Url))]
            && GetCompleted(s, 0, Success([tom])).local == [tom]
            && !SatisfiesAll(tom, FilterOperations(s.filterStrategy))
  {
    var s := PaulOnlyBinding();
    var tom := Account(Some(1), "Tom");
    InitRequests(NewService(Url), s.filterStrategy, NoSort, false, "", []);
    LatestIsLive(s.log);
    assert Name.get(tom) == Text("Tom") != Text("Paul");
    assert !Holds(Exists(Name, Text("Paul")), tom);
  }

  /** With the corrected completion the array stays empty, as the client filter demands. */
  lemma GetResponseKeptFiltersTom()
    ensures var s := PaulOnlyBinding();
            |s.log| == 1 && GetCompletedKept(s, 0, Success([Account(Some(1), "Tom")])).local == []
  {
    var s := PaulOnlyBinding();
    var tom := Account(Some(1), "Tom");
    var op := Exists(Name, Text("Paul"));
    InitRequests(NewService(Url), s.filterStrategy, NoSort, false, "", []);
    LatestIsLive(s.log);
    assert Name.get(tom) == Text("Tom") != Text("Paul");
    assert Keep([tom], op) == [];
    assert ApplyClientFilter([tom], [op]) == [];
  }

  /** Client filters on ids 1 to 2 and a client sort by name, with Max and Tom stored and Paul's account just POSTed. */
  function TwoStored(): State {
    State([Account(Some(2), "Max"), Account(Some(1), "Tom")],
          [Request(POST, Url, Some(Account(None, "Paul")), PostSlot)], NewService(Url),
          ClientFilter([Lte(Id, Num(2)), Gte(Id, Num(1))]), ClientSort(Sorter(Asc, Name)), false, false, false, "", None)
  }

  /** The client filter on ids 1 to 2 drops Paul's account 3 behind Max and Tom. */
  lemma IdRangeDropsPaul()
    ensures var max, tom, paul := Account(Some(2), "Max"), Account(Some(1), "Tom"), Account(Some(3), "Paul");
            ApplyClientFilter([max, tom, paul], [Lte(Id, Num(2)), Gte(Id, Num(1))]) == [max, tom]
  {
    var max, tom, paul := Account(Some(2), "Max"), Account(Some(1), "Tom"), Account(Some(3), "Paul");
    var xs := [max, tom, paul];
    var ops := [Lte(Id, Num(2)), Gte(Id, Num(1))];
    ClientFilterIsConjunction(xs, ops);
    assert SatisfiesAll(xs[0], ops) && SatisfiesAll(xs[1], ops);
    assert !Holds(ops[0], xs[2]);
    assert KeepAll(xs[2..], ops) == [];
    assert KeepAll(xs, ops) == [xs[0], xs[1]];
  }

  /** Sorting Max and Tom by name keeps them in that order. */
  lemma MaxBeforeTom()
    ensures ApplyClientSort([Account(Some(2), "Max"), Account(Some(1), "Tom")], Sorter(Asc, Name))
         == [Account(Some(2), "Max"), Account(Some(1), "Tom")]
  {
    var max, tom := Account(Some(2), "Max"), Account(Some(1), "Tom");
    assert Name.get(tom) == Text("Tom") && Name.get(max) == Text("Max");
    assert !Less(Text("Tom"), Text("Max"));
    assert [max, tom][..1] == [max] && [max][..0] == [];
    assert SortedOn([max], Name.get, LessThan) == [max];
    assert KeyPathSort.Insert(tom, [], Name.get, LessThan) == [tom];
  }

  /**
   * Paul's account 3 comes back after Max and Tom are stored: as written it
   * joins the array, which then holds three accounts; with the corrected
   * completion the id filter drops it and the array is Max, then Tom, as
   * the combined filter-and-sort test expects.
   */
  lemma FilterAndSortAfterPaul()
    ensures var max, tom, paul := Account(Some(2), "Max"), Account(Some(1), "Tom"), Account(Some(3), "Paul");
            && PostCompleted(TwoStored(), 0, paul).local == [max, tom, paul]
            && PostCompletedKept(TwoStored(), 0, paul).local == [max, tom]
  {
    var max, tom, paul := Account(Some(2), "Max"), Account(Some(1), "Tom"), Account(Some(3), "Paul");
    var s := TwoStored();
    IdRangeDropsPaul();
    MaxBeforeTom();
    LatestIsLive(s.log);
    assert s.local + [paul] == [max, tom, paul];
    var s1 := s.(local := [max, tom, paul]);
    assert FilterPass(s1).local == [max, tom];
    assert SortPass(FilterPass(s1)).local == [max, tom];
  }

  /** The sort on three elements, with the comparisons it makes spelled out. */
  lemma SortThree(a: Element, b: Element, c: Element, key: Element -> Value, cmp: Comparator)
    ensures var ab := if InIncreasingOrder(cmp, key(b), key(a)) then [b, a] else [a, b];
            SortedOn([a, b, c], key, cmp) == KeyPathSort.Insert(c, ab, key, cmp)
  {
    var xs := [a, b, c];
    assert xs[..2] == [a, b] && [a, b][..1] == [a] && [a][..0] == [] && [a][1..] == [];
    assert SortedOn([a], key, cmp) == [a];
    assert SortedOn([a, b], key, cmp) == KeyPathSort.Insert(b, [a], key, cmp);
    assert KeyPathSort.Insert(b, [], key, cmp) == [b];
    assert SortedOn(xs, key, cmp) == KeyPathSort.Insert(c, SortedOn([a, b], key, cmp), key, cmp);
  }

  /** Sorting accounts Tom, Max and Paul ascending by name gives Max, Paul, Tom. */
  lemma SortByNameAscending()
    ensures var tom, max, paul := Account(Some(1), "Tom"), Account(Some(2), "Max"), Account(Some(3), "Paul");
            ApplyClientSort([tom, max, paul], Sorter(Asc, Name)) == [max, paul, tom]
  {
    var tom, max, paul := Account(Some(1), "Tom"), Account(Some(2), "Max"), Account(Some(3), "Paul");
    assert Name.get(tom) == Text("Tom") && Name.get(max) == Text("Max") && Name.get(paul) == Text("Paul");
    assert Less(Text("Max"), Text("Tom")) && Less(Text("Paul"), Text("Tom")) && !Less(Text("Paul"), Text("Max"));
    SortThree(tom, max, paul, Name.get, LessThan);
    assert KeyPathSort.Insert(paul, [tom], Name.get, LessThan) == [paul, tom];
  }

  /** Sorting them descending by name gives Tom, Paul, Max. */
  lemma SortByNameDescending()
    ensures var tom, max, paul := Account(Some(1), "Tom"), Account(Some(2), "Max"), Account(Some(3), "Paul");
            ApplyClientSort([tom, max, paul], Sorter(Desc, Name)) == [tom, paul, max]
  {
    var tom, max, paul := Account(Some(1), "Tom"), Account(Some(2), "Max"), Account(Some(3), "Paul");
    assert Name.get(tom) == Text("Tom") && Name.get(max) == Text("Max") && Name.get(paul) == Text("Paul");
    assert !Less(Text("Tom"), Text("Max")) && !Less(Text("Tom"), Text("Paul")) && Less(Text("Max"), Text("Paul"));
    SortThree(tom, max, paul, Name.get, GreaterThan);
    assert KeyPathSort.Insert(paul, [max], Name.get, GreaterThan) == [paul, max];
  }
}
