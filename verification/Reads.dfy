/** What a store of versioned entries answers, independent of its layout. */
module Reads {
  import opened InternalKeys

  /** The newest entry of `user` that snapshot `snap` can see. */
  ghost predicate NewestOf(s: set<Entry>, user: UserKey, snap: nat, n: Entry) {
    && n in s && Visible(n, user, snap)
    && forall e :: e in s && Visible(e, user, snap) ==> e.key.sn <= n.key.sn
  }

  /** One entry per user key and sequence number. */
  ghost predicate UniqueVersions(s: set<Entry>) {
    forall e, e' :: e in s && e' in s && e.key.user == e'.key.user && e.key.sn == e'.key.sn ==> e == e'
  }

  /** A read answers with the newest visible value; a deletion, like an absent
      key, reads as not found. */
  ghost predicate Answers(s: set<Entry>, user: UserKey, snap: nat, r: Option<Bytes>) {
    match r
    case Some(value) => exists n :: NewestOf(s, user, snap, n) && n.key.kind.Value? && n.value == value
    case None =>
      || (forall e :: e in s ==> !Visible(e, user, snap))
      || (exists n :: NewestOf(s, user, snap, n) && n.key.kind.Deletion?)
  }

  /** Both stores answer every read at every snapshot >= from alike. */
  ghost predicate ReadsAgree(s: set<Entry>, t: set<Entry>, from: nat) {
    forall user, snap, r :: snap >= from ==> (Answers(s, user, snap, r) <==> Answers(t, user, snap, r))
  }

  lemma {:induction false} NewestExists(s: set<Entry>, user: UserKey, snap: nat)
    requires exists e :: e in s && Visible(e, user, snap)
    ensures exists n :: NewestOf(s, user, snap, n)
  {
    var e :| e in s && Visible(e, user, snap);
    if !NewestOf(s, user, snap, e) {
      var better :| better in s && Visible(better, user, snap) && better.key.sn > e.key.sn;
      assert better in s - {e};
      NewestExists(s - {e}, user, snap);
      var n :| NewestOf(s - {e}, user, snap, n);
      assert NewestOf(s, user, snap, n);
    }
  }

  /** Every read has exactly one answer. */
  lemma AnswerIsUnique(s: set<Entry>, user: UserKey, snap: nat)
    requires UniqueVersions(s)
    ensures exists r :: Answers(s, user, snap, r)
    ensures forall r, r' :: Answers(s, user, snap, r) && Answers(s, user, snap, r') ==> r == r'
  {
    if exists e :: e in s && Visible(e, user, snap) {
      NewestExists(s, user, snap);
      var n :| NewestOf(s, user, snap, n);
      assert forall n' :: NewestOf(s, user, snap, n') ==> n' == n;
      assert Answers(s, user, snap, if n.key.kind.Value? then Some(n.value) else None);
    } else {
      assert Answers(s, user, snap, None);
    }
  }

  /** Agreement in one direction suffices. */
  lemma AgreeFromOneSide(s: set<Entry>, t: set<Entry>, from: nat)
    requires UniqueVersions(s) && UniqueVersions(t)
    requires forall user, snap, r :: snap >= from && Answers(s, user, snap, r) ==> Answers(t, user, snap, r)
    ensures ReadsAgree(s, t, from)
  {
    forall user, snap, r | snap >= from && Answers(t, user, snap, r)
      ensures Answers(s, user, snap, r)
    {
      AnswerIsUnique(s, user, snap);
      AnswerIsUnique(t, user, snap);
      var r' :| Answers(s, user, snap, r');
    }
  }

  lemma AgreeLater(s: set<Entry>, t: set<Entry>, from: nat, from': nat)
    requires ReadsAgree(s, t, from) && from <= from'
    ensures ReadsAgree(s, t, from')
  {
  }

  lemma AgreeTransitive(s: set<Entry>, t: set<Entry>, u: set<Entry>, from: nat)
    requires ReadsAgree(s, t, from) && ReadsAgree(t, u, from)
    ensures ReadsAgree(s, u, from)
  {
  }

  ghost predicate AllNewer(n: set<Entry>, s: set<Entry>) {
    forall e, e' :: e in n && e' in s ==> e.key.sn > e'.key.sn
  }

  /** Adding the same newer entries to both stores keeps them alike. */
  lemma AgreeWithNewer(s: set<Entry>, t: set<Entry>, n: set<Entry>, from: nat)
    requires ReadsAgree(s, t, from) && AllNewer(n, s) && AllNewer(n, t)
    ensures ReadsAgree(s + n, t + n, from)
  {
    forall user, snap, r | snap >= from
      ensures Answers(s + n, user, snap, r) <==> Answers(t + n, user, snap, r)
    {
      NewerDecides(s, n, user, snap, r);
      NewerDecides(t, n, user, snap, r);
    }
  }

  lemma NewerDecides(s: set<Entry>, n: set<Entry>, user: UserKey, snap: nat, r: Option<Bytes>)
    requires AllNewer(n, s)
    ensures Answers(s + n, user, snap, r) <==>
            if exists e :: e in n && Visible(e, user, snap) then Answers(n, user, snap, r) else Answers(s, user, snap, r)
  {
    if exists e :: e in n && Visible(e, user, snap) {
      assert forall m :: NewestOf(s + n, user, snap, m) <==> NewestOf(n, user, snap, m);
    } else {
      assert forall m :: NewestOf(s + n, user, snap, m) <==> NewestOf(s, user, snap, m);
    }
  }
}
