/** The SQL release as two steps. Its inner SELECT picks abandoned keys and its DELETE removes
    their rows afterwards; a database that does not look at the picked rows again lets a claim
    commit in between. Here is what that costs, and exactly when it costs nothing. */
module SplitRelease {
  import opened Base
  import opened UploadRules
  import opened UploadTable
  import opened UploadLifecycle
  import opened UploadSafety

  /** Sweep `c` picked these keys in `s0`; the run `acts` brought the store to `s`, where the
      sweep has still to delete. */
  ghost predicate Picked(gcAfter: int, s0: State, acts: seq<Action>, s: State, c: nat, picked: set<string>) {
    && Inv(gcAfter, s0) && Runs(gcAfter, s0, acts) && s == After(gcAfter, s0, acts)
    && c in s0.calls && s0.calls[c].Sweeping?
    && c in s.calls && s.calls[c] == s0.calls[c]
    && picked <= AllAbandoned(s0.table, s0.calls[c].cutoff) && |picked| <= BATCH
  }

  /** The DELETE removes the rows of the picked keys as they now are, and hands those keys on. */
  function AfterLateDelete(s: State, c: nat, picked: set<string>): State {
    var keys := picked * s.table.Keys;
    WithCall(s.(table := Released(s.table, keys), released := s.released + keys), c,
             if keys == {} then Finished(Swept) else Deleting(keys))
  }

  /** A picked key that nobody claimed is as abandoned as it was. */
  lemma StillAbandoned(
      gcAfter: int, s0: State, acts: seq<Action>, s: State, c: nat, picked: set<string>, key: string)
    requires Picked(gcAfter, s0, acts, s, c, picked) && key in picked && Pending(s.table, key)
    ensures Abandoned(s.table, key, s.calls[c].cutoff)
  {
    RunExtends(gcAfter, s0, acts);
    assert key in AllAbandoned(s0.table, s0.calls[c].cutoff);
    assert key in s0.table.Keys && key in s0.ledger.Keys;
    assert s0.table[key].SameReservation(s0.ledger[key]) && s.table[key].SameReservation(s.ledger[key]);
  }

  lemma UnclaimedKeepsInv(gcAfter: int, s0: State, acts: seq<Action>, s: State, c: nat, picked: set<string>)
    requires Picked(gcAfter, s0, acts, s, c, picked)
    requires forall key :: key in picked ==> !Attached(s.table, key)
    ensures Inv(gcAfter, AfterLateDelete(s, c, picked))
  {
    RunExtends(gcAfter, s0, acts);
    var keys := picked * s.table.Keys;
    forall key | key in keys ensures key in AllAbandoned(s.table, s.calls[c].cutoff) {
      StillAbandoned(gcAfter, s0, acts, s, c, picked, key);
    }
    assert CallOk(gcAfter, s, s.calls[c]);
    ReleasingKeepsInv(gcAfter, s, c, keys, s.calls[c].cutoff, if keys == {} then Finished(Swept) else Deleting(keys));
  }

  /** A deleted row of an attached key is missing from the account of its use, its holder or
      its burning. */
  lemma ClaimedBreaksInv(gcAfter: int, s: State, c: nat, picked: set<string>, key: string)
    requires Inv(gcAfter, s) && c in s.calls && s.calls[c].Sweeping?
    requires key in picked && Attached(s.table, key)
    ensures !Inv(gcAfter, AfterLateDelete(s, c, picked))
  {
    var s' := AfterLateDelete(s, c, picked);
    assert key !in s'.table;
    assert Accounted(s, key);
    if Used(s, key) {
      var i :| 0 <= i < |s.log| && s.log[i].key == key;
      assert !UseOk(s', s'.log[i]);
    } else if Held(s, key) {
      var d :| d in s.calls && s.calls[d].Attaching? && s.calls[d].key == key;
      assert d in s'.calls && !CallOk(gcAfter, s', s'.calls[d]);
    }
  }

  /** The late DELETE keeps what the protocol keeps exactly when no picked key was claimed
      before it. */
  lemma LateDeleteIsSafeIff(gcAfter: int, s0: State, acts: seq<Action>, s: State, c: nat, picked: set<string>)
    requires Picked(gcAfter, s0, acts, s, c, picked)
    ensures Inv(gcAfter, AfterLateDelete(s, c, picked)) <==> forall key :: key in picked ==> !Attached(s.table, key)
  {
    RunExtends(gcAfter, s0, acts);
    if key :| key in picked && Attached(s.table, key) {
      ClaimedBreaksInv(gcAfter, s, c, picked, key);
    } else {
      UnclaimedKeepsInv(gcAfter, s0, acts, s, c, picked);
    }
  }

  /** Then every key that is shown stays safe through any further run. */
  lemma UnclaimedStaysSafe(
      gcAfter: int, s0: State, acts: seq<Action>, s: State, c: nat, picked: set<string>, more: seq<Action>, p: Place)
    requires Picked(gcAfter, s0, acts, s, c, picked)
    requires forall key :: key in picked ==> !Attached(s.table, key)
    requires Runs(gcAfter, AfterLateDelete(s, c, picked), more)
    requires Shows(After(gcAfter, AfterLateDelete(s, c, picked), more), p).Some?
    ensures SafelyShown(After(gcAfter, AfterLateDelete(s, c, picked), more), p)
  {
    UnclaimedKeepsInv(gcAfter, s0, acts, s, c, picked);
    RunExtends(gcAfter, AfterLateDelete(s, c, picked), more);
    InvShowsSafely(gcAfter, After(gcAfter, AfterLateDelete(s, c, picked), more), p);
  }

  /** Otherwise a picture can be lost: a key past its grace period is picked, its owner posts
      with it, and the late DELETE sends the new post's object to deletion. */
  lemma LateDeleteTakesAPostedImage(
      gcAfter: int, s0: State, c: nat, d: nat, user: string, key: string, choice: Choice)
    returns (acts: seq<Action>)
    requires Inv(gcAfter, s0) && c in s0.calls && s0.calls[c].Sweeping? && d !in s0.calls
    requires Abandoned(s0.table, key, s0.calls[c].cutoff) && Claimable(s0.table, key, user, Post)
    requires Passes(Post, choice.info) && Decodable(choice.info.value) && choice.id !in s0.posts
    ensures Runs(gcAfter, s0, acts)
    ensures var s := After(gcAfter, s0, acts);
            && Picked(gcAfter, s0, acts, s, c, {key})
            && Shows(AfterLateDelete(s, c, {key}), OfPost(choice.id)) == Some(key)
            && UpForDeletion(AfterLateDelete(s, c, {key}), key)
  {
    acts := UninterruptedUse(gcAfter, s0, d, user, Post, key, choice);
    var s' := AfterLateDelete(After(gcAfter, s0, acts), c, {key});
    assert {key} * After(gcAfter, s0, acts).table.Keys == {key};
    assert s'.calls[c] == Deleting({key});
  }
}
