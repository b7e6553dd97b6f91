/** The write-back over all inbounds: one inbound does not disturb another, and what a write-back leaves to be
    done can be told from the state before it. */
module Settling {
  import opened ConfigFile
  import opened Credentials
  import opened Options
  import opened Restore
  import opened RestoreResults
  import opened Text
  import opened TwoWay

  // ----- one inbound does not disturb another -----

  /** The inbound that writes for a tag go to. */
  function Entry(ibs: seq<Inbound>, t: string): Option<Inbound> {
    if Position(ibs, t) < |ibs| then Some(ibs[Position(ibs, t)]) else None
  }

  /** The inbound of t is the same in both lists. */
  ghost predicate SameView(a: seq<Inbound>, b: seq<Inbound>, t: string) {
    ExistingIdentities(a, t) == ExistingIdentities(b, t) && Entry(a, t) == Entry(b, t)
  }

  lemma {:induction false} ExistingUpdate(ibs: seq<Inbound>, p: nat, ib: Inbound, t: string)
    requires p < |ibs| && !Readable(ibs[p], t) && !Readable(ib, t)
    ensures ExistingIdentities(ibs[p := ib], t) == ExistingIdentities(ibs, t)
  {
    hide Readable, Extract, Identities;
    if p == 0 {
      assert ibs[p := ib][1..] == ibs[1..];
    } else {
      ExistingUpdate(ibs[1..], p - 1, ib, t);
      assert ibs[p := ib][1..] == ibs[1..][p - 1 := ib];
    }
  }

  lemma AppendedElsewhere(ibs: seq<Inbound>, tag: string, c: Item, t: string)
    requires t != tag && Accepts(ibs, tag)
    ensures SameView(ibs, AppendedAt(ibs, tag, c), t)
  {
    hide Trim, Position, Extract;
    var p := Position(ibs, tag);
    AppendedKeepsPlaces(ibs, tag, c, t);
    assert HasTag(ibs[p], tag);
    ExistingUpdate(ibs, p, Appended(ibs[p], c), t);
  }

  lemma {:induction false} SyncUsersElsewhere(dir: seq<Named>, tag: string, rows: seq<Row>, identities: set<string>, t: string)
    requires t != tag
    ensures SameView(Flat(dir), Flat(SyncUsers(dir, tag, rows, identities).dir), t)
    decreases |rows|
  {
    hide Trim, AddExisting, Flat, Entry, ExistingIdentities, Accepts, AppendedAt, Writable, ToItem;
    if rows != [] {
      var r, rest := rows[0], rows[1..];
      var u := Trim(r.username);
      AddExistingFlat(dir, tag, u, r.stored);
      if u != "" && u !in identities && AddExisting(dir, tag, u, r.stored).Ok? {
        AppendedElsewhere(Flat(dir), tag, ToItem(r.stored, Trim(u)).value, t);
        SyncUsersElsewhere(AddExisting(dir, tag, u, r.stored).value, tag, rest, identities + {u}, t);
      } else {
        SyncUsersElsewhere(dir, tag, rest, identities, t);
      }
    }
  }

  lemma OneTagElsewhere(dir: seq<Named>, x: string, rows: seq<Row>, t: string)
    requires t != x
    ensures SameView(Flat(dir), Flat(OneTag(dir, x, rows).dir), t)
  {
    hide SyncUsers, Flat, Entry, ExistingIdentities, OneTag;
    OneTagCases(dir, x, rows);
    if !Skipped(dir, x, rows) {
      SyncUsersElsewhere(dir, x, rows, ExistingIdentities(Flat(dir), x).value, t);
    }
  }

  lemma {:induction false} SyncBackElsewhere(dir: seq<Named>, tags: seq<string>, listing: map<string, seq<Row>>, t: string)
    requires t !in tags && forall x :: x in tags ==> x in listing
    ensures SameView(Flat(dir), Flat(SyncBack(dir, tags, listing).dir), t)
    decreases |tags|
  {
    hide OneTag, Flat, Entry, ExistingIdentities;
    if tags != [] {
      var x, rest := tags[0], tags[1..];
      assert x in tags && tags == [x] + rest;
      OneTagElsewhere(dir, x, listing[x], t);
      SyncBackElsewhere(OneTag(dir, x, listing[x]).dir, rest, listing, t);
    }
  }

  // ----- settling -----

  /** What is listed for t is there, or cannot be written. */
  ghost predicate Settled(ibs: seq<Inbound>, t: string, rows: seq<Row>) {
    t == "" || ExistingIdentities(ibs, t).None? || forall r :: r in rows ==> Done(ibs, t, r, ExistingIdentities(ibs, t).value)
  }

  /** The condition for that, on the state before. */
  ghost predicate SettlesAt(ibs: seq<Inbound>, t: string, rows: seq<Row>) {
    t == "" || ExistingIdentities(ibs, t).None? || WillSettle(ibs, t, rows, ExistingIdentities(ibs, t).value)
  }

  lemma SettledSameView(a: seq<Inbound>, b: seq<Inbound>, t: string, rows: seq<Row>)
    requires SameView(a, b, t)
    ensures Settled(a, t, rows) <==> Settled(b, t, rows)
    ensures SettlesAt(a, t, rows) <==> SettlesAt(b, t, rows)
  {
    hide Trim, Receptive, SingleUser, ExistingIdentities, Position, Writable;
    assert Accepts(a, t) <==> Entry(a, t).Some? && Entry(a, t).value.settings.Settings?;
    assert Accepts(b, t) <==> Entry(b, t).Some? && Entry(b, t).value.settings.Settings?;
  }

  lemma OneTagSettles(dir: seq<Named>, t: string, rows: seq<Row>)
    requires Unique(Flat(dir))
    ensures var d := OneTag(dir, t, rows).dir;
            Unique(Flat(d)) && (Settled(Flat(d), t, rows) <==> SettlesAt(Flat(dir), t, rows))
  {
    hide Trim, Flat, SyncUsers, ExistingIdentities, Accepts, Writable, Unique, Receptive, SingleUser, OneTag, Position;
    OneTagCases(dir, t, rows);
    if !Skipped(dir, t, rows) {
      SyncSettles(dir, t, rows, ExistingIdentities(Flat(dir), t).value);
    }
  }

  /** Main result: after a write-back over distinct tags everything listed for an inbound is there or cannot be
      written exactly when the inbound, as it was before, is one where that settles. */
  lemma {:induction false} SyncBackSettles(dir: seq<Named>, tags: seq<string>, listing: map<string, seq<Row>>)
    requires Unique(Flat(dir)) && (forall i, j :: 0 <= i < j < |tags| ==> tags[i] != tags[j])
    requires forall t :: t in tags ==> t in listing
    ensures var d := SyncBack(dir, tags, listing).dir;
            && Unique(Flat(d))
            && forall t :: t in tags ==> (Settled(Flat(d), t, listing[t]) <==> SettlesAt(Flat(dir), t, listing[t]))
    decreases |tags|
  {
    hide OneTag, Flat, ExistingIdentities, SettlesAt, Settled, SameView, Unique;
    if tags != [] {
      var x, rest := tags[0], tags[1..];
      assert x in tags && tags == [x] + rest && x !in rest;
      var d := OneTag(dir, x, listing[x]).dir;
      OneTagSettles(dir, x, listing[x]);
      SyncBackSettles(d, rest, listing);
      SyncBackElsewhere(d, rest, listing, x);
      SettledSameView(Flat(d), Flat(SyncBack(d, rest, listing).dir), x, listing[x]);
      forall t | t in rest
        ensures SettlesAt(Flat(d), t, listing[t]) <==> SettlesAt(Flat(dir), t, listing[t])
      {
        OneTagElsewhere(dir, x, listing[x], t);
        SettledSameView(Flat(dir), Flat(d), t, listing[t]);
      }
    }
  }

  lemma OneTagIdle(dir: seq<Named>, t: string, rows: seq<Row>)
    ensures OneTag(dir, t, rows).added == 0 <==> Settled(Flat(dir), t, rows)
    ensures OneTag(dir, t, rows).added == 0 ==> OneTag(dir, t, rows).dir == dir
  {
    hide SyncUsers, Flat, ExistingIdentities, Done, OneTag;
    OneTagCases(dir, t, rows);
    if !Skipped(dir, t, rows) {
      NothingToDo(dir, t, rows, ExistingIdentities(Flat(dir), t).value);
    }
  }

  /** A write-back writes nothing exactly when everything listed is settled already. */
  lemma {:induction false} SyncBackIdle(dir: seq<Named>, tags: seq<string>, listing: map<string, seq<Row>>)
    requires forall t :: t in tags ==> t in listing
    ensures SyncBack(dir, tags, listing).added == 0 <==> forall t :: t in tags ==> Settled(Flat(dir), t, listing[t])
    ensures SyncBack(dir, tags, listing).added == 0 ==> SyncBack(dir, tags, listing).dir == dir
    decreases |tags|
  {
    hide OneTag, Flat, Settled;
    if tags != [] {
      var x, rest := tags[0], tags[1..];
      assert x in tags && tags == [x] + rest;
      OneTagIdle(dir, x, listing[x]);
      SyncBackIdle(OneTag(dir, x, listing[x]).dir, rest, listing);
    }
  }

  // ----- what is shown afterwards -----

  /** The listed names that are missing from these identities and can be written. */
  function Wanting(rows: seq<Row>, ids: set<string>): set<string> {
    set r | r in rows && Trim(r.username) != "" && Trim(r.username) !in ids && Writable(r.stored) :: Trim(r.username)
  }

  /** What a fresh reading finds for t once the rows listed for t are written back: the new names besides the old
      identities, or instead of the single user, or no difference. */
  function ShownAfter(ibs: seq<Inbound>, t: string, rows: seq<Row>): Option<set<string>> {
    var was := ExistingIdentities(ibs, t);
    if t == "" || was.None? || !Accepts(ibs, t) || Wanting(rows, was.value) == {} then was
    else if Receptive(ibs[Position(ibs, t)]) then Some(was.value + Wanting(rows, was.value))
    else if SingleUser(ibs[Position(ibs, t)]) then Some(Wanting(rows, was.value))
    else was
  }

  lemma {:induction false} SyncAddsWanting(dir: seq<Named>, tag: string, rows: seq<Row>, ids: set<string>)
    ensures SyncUsers(dir, tag, rows, ids).identities <= ids + Wanting(rows, ids)
    decreases |rows|
  {
    hide Trim, AddExisting, Flat, Accepts, AppendedAt, Writable, ToItem;
    if rows != [] {
      var r, rest := rows[0], rows[1..];
      var u := Trim(r.username);
      assert rows == [r] + rest;
      AddExistingFlat(dir, tag, u, r.stored);
      if u != "" && u !in ids && AddExisting(dir, tag, u, r.stored).Ok? {
        SyncAddsWanting(AddExisting(dir, tag, u, r.stored).value, tag, rest, ids + {u});
        assert u in Wanting(rows, ids);
      } else {
        SyncAddsWanting(dir, tag, rest, ids);
      }
    }
  }

  lemma SyncShows(dir: seq<Named>, t: string, rows: seq<Row>, ids: set<string>)
    requires Unique(Flat(dir)) && t != "" && ExistingIdentities(Flat(dir), t) == Some(ids)
    ensures ExistingIdentities(Flat(SyncUsers(dir, t, rows, ids).dir), t) == ShownAfter(Flat(dir), t, rows)
  {
    hide Trim, Flat, SyncUsers, Unique, Writable, Receptive, SingleUser, ExistingIdentities, Extract, Identities, Position,
         Wanting;
    var o, ibs, p := SyncUsers(dir, t, rows, ids), Flat(dir), Position(Flat(dir), t);
    var new_ := SyncConserves(dir, t, rows, ids);
    ExtendedUnique(ibs, t, new_);
    ExistingAt(ibs, t);
    ExistingAt(Flat(o.dir), t);
    if Accepts(ibs, t) {
      AddedAreWanting(dir, t, rows, ids, new_);
      if new_ != [] {
        assert new_[0].email in Emails(new_);
        MoreShown(ibs[p], new_, map[]);
      }
    }
  }

  lemma AddedAreWanting(dir: seq<Named>, t: string, rows: seq<Row>, ids: set<string>, new_: seq<Item>)
    requires Accepts(Flat(dir), t) && AllNamed(new_) && Emails(new_) !! ids
    requires SyncUsers(dir, t, rows, ids).identities == ids + Emails(new_)
    ensures Emails(new_) == Wanting(rows, ids)
  {
    hide Trim, Flat, SyncUsers, Writable, Accepts;
    SyncAddsWanting(dir, t, rows, ids);
    SyncHandlesAll(dir, t, rows, ids);
    assert Wanting(rows, ids) !! ids;
    assert Wanting(rows, ids) <= ids + Emails(new_);
  }

  lemma OneTagShows(dir: seq<Named>, t: string, rows: seq<Row>)
    requires Unique(Flat(dir))
    ensures ExistingIdentities(Flat(OneTag(dir, t, rows).dir), t) == ShownAfter(Flat(dir), t, rows)
  {
    hide Trim, Flat, SyncUsers, ExistingIdentities, Accepts, Writable, Unique, Receptive, SingleUser, OneTag, Position;
    OneTagCases(dir, t, rows);
    if !Skipped(dir, t, rows) {
      SyncShows(dir, t, rows, ExistingIdentities(Flat(dir), t).value);
    }
  }

  lemma ShownSameView(a: seq<Inbound>, b: seq<Inbound>, t: string, rows: seq<Row>)
    requires SameView(a, b, t)
    ensures ShownAfter(a, t, rows) == ShownAfter(b, t, rows)
  {
    hide Trim, Receptive, SingleUser, ExistingIdentities, Position, Wanting;
    assert Accepts(a, t) <==> Entry(a, t).Some? && Entry(a, t).value.settings.Settings?;
    assert Accepts(b, t) <==> Entry(b, t).Some? && Entry(b, t).value.settings.Settings?;
  }

  /** Main result: what every inbound shows after a write-back over distinct tags, told from the state before. */
  lemma {:induction false} SyncBackShows(dir: seq<Named>, tags: seq<string>, listing: map<string, seq<Row>>)
    requires Unique(Flat(dir)) && (forall i, j :: 0 <= i < j < |tags| ==> tags[i] != tags[j])
    requires forall t :: t in tags ==> t in listing
    ensures var d := SyncBack(dir, tags, listing).dir;
            forall t :: ExistingIdentities(Flat(d), t) ==
                        if t in tags then ShownAfter(Flat(dir), t, listing[t]) else ExistingIdentities(Flat(dir), t)
    decreases |tags|
  {
    hide OneTag, Flat, ExistingIdentities, ShownAfter, Unique;
    if tags != [] {
      var x, rest := tags[0], tags[1..];
      assert x in tags && tags == [x] + rest && x !in rest;
      var d := OneTag(dir, x, listing[x]).dir;
      OneTagSettles(dir, x, listing[x]);
      OneTagShows(dir, x, listing[x]);
      SyncBackShows(d, rest, listing);
      forall t | t != x
        ensures ExistingIdentities(Flat(d), t) == ExistingIdentities(Flat(dir), t)
        ensures t in rest ==> ShownAfter(Flat(d), t, listing[t]) == ShownAfter(Flat(dir), t, listing[t])
      {
        OneTagElsewhere(dir, x, listing[x], t);
        if t in rest {
          ShownSameView(Flat(d), Flat(dir), t, listing[t]);
        }
      }
    }
  }
}
