/**
 * The session service in the form it has: each operation reads, edits and rewrites cache entries in sequence.
 *
 * The cache's three kinds of entries are three maps. Every operation makes the step of module `Sessions`, keeps the
 * invariant of `SessionTheorems`, and leaves its caller what its contract says; the private helpers say which entry
 * they rewrite.
 */
module SessionService {
  import opened Options
  import opened Sessions
  import opened SessionTheorems

  /** Index of the first occurrence, or -1. */
  method IndexOf(s: seq<string>, x: string) returns (i: int)
    ensures -1 <= i < |s|
    ensures i == -1 <==> x !in s
    ensures i >= 0 ==> s[..i] + s[i + 1..] == RemoveFirst(s, x)
  {
    for k := 0 to |s|
      invariant forall j | 0 <= j < k :: s[j] != x
      invariant s[..k] + RemoveFirst(s[k..], x) == RemoveFirst(s, x)
    {
      assert s[k..][1..] == s[k + 1..];
      if s[k] == x {
        return k;
      }
      assert s[..k] + ([s[k]] + RemoveFirst(s[k + 1..], x)) == s[..k + 1] + RemoveFirst(s[k + 1..], x);
    }
    i := -1;
  }

  class AuthenticationSessionService {
    var sessions: map<string, Session>
    var subjects: map<string, seq<string>>
    var families: map<string, Family>
    var consumed: set<string>
    ghost var minted: set<RefreshToken>
    ghost var ids: set<string>

    constructor ()
      ensures View() == EMPTY
    {
      sessions, subjects, families, consumed := map[], map[], map[], {};
      minted, ids := {}, {};
    }

    ghost function View(): State
      reads this
    {
      State(sessions, subjects, families, consumed, minted, ids)
    }

    method AddSubjectEntry(subject: string, token: string)
      modifies this`subjects
      ensures View() == EnsureSubjectSession(old(View()), subject, token)
    {
      var listed := if subject in subjects then subjects[subject] else [];
      if token !in listed {
        subjects := subjects[subject := listed + [token]];
      }
    }

    method RemoveSubjectEntry(subject: string, token: string)
      modifies this`subjects
      ensures View() == RemoveSubjectSession(old(View()), subject, token)
    {
      var listed := if subject in subjects then subjects[subject] else [];
      var i := IndexOf(listed, token);
      if i > -1 {
        subjects := subjects[subject := listed[..i] + listed[i + 1..]];
      }
    }

    method RegisterJti(f: string, jti: string, token: string)
      modifies this`families
      ensures View() == AddJtiToFamily(old(View()), f, jti, token)
    {
      var blob := if f in families then families[f] else Family([], []);
      if jti !in blob.jtis {
        blob := blob.(jtis := blob.jtis + [jti]);
      }
      if token !in blob.sessionTokens {
        blob := blob.(sessionTokens := blob.sessionTokens + [token]);
      }
      families := families[f := blob];
    }

    method LeaveFamily(f: string, token: string)
      modifies this`families
      ensures View() == RemoveSessionFromFamily(old(View()), f, token)
    {
      if f !in families {
        return;
      }
      var blob := families[f];
      var i := IndexOf(blob.sessionTokens, token);
      if i > -1 {
        blob := blob.(sessionTokens := blob.sessionTokens[..i] + blob.sessionTokens[i + 1..]);
      } else {
        RemoveAbsent(blob.sessionTokens, token);
      }
      if |blob.sessionTokens| == 0 {
        families := families - {f};
      } else {
        families := families[f := blob];
      }
    }

    /** `token` and `f` are the identifiers the operation draws. */
    method CreateSession(subject: string, data: string, token: string, f: string) returns (session: Session)
      requires Inv(View()) && Legal(View(), Create(subject, data, token, f))
      modifies this
      ensures Inv(View()) && View() == Step(old(View()), Create(subject, data, token, f))
      ensures token !in old(sessions) && sessions == old(sessions)[token := session]
      ensures session.subject == subject && session.familyId == Some(f) && session.data == data
      ensures subjects == old(subjects)[subject := Listed(old(subjects), subject) + [token]]
      ensures families == old(families) && consumed == old(consumed) && f !in families
    {
      CreateKeeps(View(), subject, token, f, data);
      CreateMeans(View(), subject, token, f, data);
      session := Session(token, subject, Some(f), data);
      ids := ids + {token, f};
      sessions := sessions[token := session];
      AddSubjectEntry(subject, token);
    }

    method UpdateSession(token: string, subject: string, data: string) returns (session: Option<Session>)
      requires Inv(View())
      modifies this
      ensures Inv(View()) && View() == Step(old(View()), Update(token, subject, data))
      ensures session.Some? <==> token in old(sessions) && old(sessions)[token].subject == subject
      ensures session.Some? ==> session.value == old(sessions)[token].(data := data)
      ensures sessions == if session.Some? then old(sessions)[token := session.value] else old(sessions)
      ensures subjects == old(subjects) && families == old(families) && consumed == old(consumed)
    {
      UpdateKeeps(View(), token, subject, data);
      if token !in sessions || sessions[token].subject != subject {
        return None;
      }
      session := Some(sessions[token].(data := data));
      sessions := sessions[token := session.value];
      AddSubjectEntry(subject, token);
    }

    method CreateOrUpdateSession(known: Option<string>, subject: string, data: string, token: string, f: string)
      returns (session: Option<Session>)
      requires Inv(View()) && Legal(View(), CreateOrUpdate(known, subject, data, token, f))
      modifies this
      ensures Inv(View()) && View() == Step(old(View()), CreateOrUpdate(known, subject, data, token, f))
      ensures session.None? <==>
              known.Some? && known.value in old(sessions) && old(sessions)[known.value].subject != subject
      ensures session.None? ==> View() == old(View())
      ensures session.Some? ==>
                session.value.subject == subject && session.value.data == data &&
                sessions == old(sessions)[(if known.Some? && known.value in old(sessions) then known.value else token) := session.value]
    {
      if known.Some? && known.value in sessions {
        session := UpdateSession(known.value, subject, data);
      } else {
        var created := CreateSession(subject, data, token, f);
        session := Some(created);
      }
    }

    method DeleteSession(token: string)
      requires Inv(View())
      modifies this
      ensures Inv(View()) && View() == Step(old(View()), Delete(token))
      ensures sessions == old(sessions) - {token} && consumed == old(consumed)
      ensures forall s, t :: t in Listed(subjects, s) <==> t in Listed(old(subjects), s) && t != token
      ensures forall f | f in families :: token !in families[f].sessionTokens
      ensures forall f | f in old(families) && token !in old(families)[f].sessionTokens ::
                f in families && families[f] == old(families)[f]
    {
      DeleteMeans(View(), token);
      if token in sessions {
        var session := sessions[token];
        sessions := sessions - {token};
        RemoveSubjectEntry(session.subject, token);
        if session.familyId.Some? {
          LeaveFamily(session.familyId.value, token);
        }
      }
    }

    method IssueTokensForLoadedSession(session: Session, jti: string) returns (token: Option<RefreshToken>)
      modifies this
      ensures View() == OrSame(old(View()), IssueForLoaded(old(View()), session, jti))
      ensures token == if session.familyId.Some? then Some(RefreshToken(jti, session.familyId.value, session.token)) else None
    {
      if session.familyId.None? {
        return None;
      }
      token := Some(RefreshToken(jti, session.familyId.value, session.token));
      minted, ids := minted + {token.value}, ids + {jti};
      RegisterJti(session.familyId.value, jti, session.token);
    }

    method IssueTokenForSession(token: string, jti: string) returns (refresh: Option<RefreshToken>)
      requires Inv(View()) && Legal(View(), Issue(token, jti))
      modifies this
      ensures Inv(View()) && View() == Step(old(View()), Issue(token, jti))
      ensures refresh.Some? <==> token in sessions
      ensures refresh.Some? ==> refresh.value.sessionToken == token && refresh.value.jti == jti && Redeemable(View(), refresh.value)
      ensures sessions == old(sessions) && subjects == old(subjects) && consumed == old(consumed)
      ensures KeepsJtis(old(families), families)
    {
      if token !in sessions {
        return None;
      }
      IssueKeeps(View(), token, jti);
      IssueMeans(View(), token, jti);
      refresh := IssueTokensForLoadedSession(sessions[token], jti);
    }

    /** The cache calls that put a session in the place of another one. */
    method Replace(token: string, renewed: Session, familyId: string)
      modifies this`sessions, this`subjects, this`families
      ensures var put := old(View()).(sessions := old(sessions)[renewed.token := renewed]);
              var listed := EnsureSubjectSession(put, renewed.subject, renewed.token);
              var dropped := RemoveSubjectSession(DropSession(listed, token), renewed.subject, token);
              View() == RemoveSessionFromFamily(dropped, familyId, token)
    {
      sessions := sessions[renewed.token := renewed];
      AddSubjectEntry(renewed.subject, renewed.token);
      sessions := sessions - {token};
      RemoveSubjectEntry(renewed.subject, token);
      LeaveFamily(familyId, token);
    }

    method RotateSession(token: string, data: string, newToken: string, f: string, jti: string)
      returns (refresh: Option<RefreshToken>)
      requires Inv(View()) && Legal(View(), Rotate(token, data, newToken, f, jti))
      modifies this
      ensures Inv(View()) && View() == Step(old(View()), Rotate(token, data, newToken, f, jti))
      ensures refresh.Some? <==> token in old(sessions)
      ensures refresh.None? ==> View() == old(View())
      ensures refresh.Some? ==>
                sessions == old(sessions)[newToken := old(sessions)[token].(token := newToken, data := data)] - {token} &&
                (forall s, t ::
                   t in Listed(subjects, s) <==>
                   (t in Listed(old(subjects), s) && t != token) || (t == newToken && token in Listed(old(subjects), s))) &&
                refresh.value.sessionToken == newToken && refresh.value.jti == jti && Redeemable(View(), refresh.value)
      ensures consumed == old(consumed)
    {
      if token !in sessions {
        return None;
      }
      ghost var next := Sessions.RotateSession(View(), token, newToken, f, jti, data);
      RotateIssues(View(), token, newToken, f, jti, data);
      RotateMeans(View(), token, newToken, f, jti, data);
      var session := sessions[token];
      var familyId := if session.familyId.Some? then session.familyId.value else f;
      var renewed := Session(newToken, session.subject, Some(familyId), data);
      ids := ids + {newToken, f};
      Replace(token, renewed, familyId);
      refresh := IssueTokensForLoadedSession(renewed, jti);
      assert next == Some(View());
    }

    method RevokeSessions(tokens: seq<string>)
      modifies this`sessions, this`subjects
      ensures View() == RevokeTokens(old(View()), tokens)
    {
      for i := 0 to |tokens|
        invariant RevokeTokens(View(), tokens[i..]) == RevokeTokens(old(View()), tokens)
        invariant families == old(families) && consumed == old(consumed) && minted == old(minted) && ids == old(ids)
      {
        assert tokens[i..][1..] == tokens[i + 1..];
        var session := if tokens[i] in sessions then Some(sessions[tokens[i]]) else None;
        sessions := sessions - {tokens[i]};
        if session.Some? {
          RemoveSubjectEntry(session.value.subject, tokens[i]);
        }
      }
    }

    method RevokeWholeFamily(f: string)
      modifies this
      ensures View() == RevokeFamily(old(View()), f)
    {
      if f !in families {
        return;
      }
      RevokeSessions(families[f].sessionTokens);
      families := families - {f};
    }

    /** `presented` is what the presented text decodes to; `None` when it does not decode. */
    method RefreshSession(presented: Option<RefreshToken>, jti: string) returns (refresh: Option<RefreshToken>)
      requires Inv(View()) && Legal(View(), Refresh(presented, jti))
      modifies this
      ensures Inv(View()) && Refreshed(View(), refresh.Some?) == Sessions.RefreshSession(old(View()), presented, jti)
      ensures presented.None? ==> refresh.None? && View() == old(View())
      ensures presented.Some? ==>
                var k := presented.value;
                consumed == old(consumed) + {k.jti} &&
                (refresh.Some? <==> k.jti !in old(consumed) && k.sessionToken in old(sessions)) &&
                (refresh.Some? ==>
                   refresh.value.sessionToken == k.sessionToken && refresh.value.jti == jti && Redeemable(View(), refresh.value)) &&
                (k.jti !in old(consumed) ==>
                   sessions == old(sessions) && subjects == old(subjects) && KeepsJtis(old(families), families)) &&
                (k.jti in old(consumed) ==>
                   Dead(View(), k.familyId) &&
                   forall t, g | g != k.familyId :: InFamily(sessions, t, g) <==> InFamily(old(sessions), t, g))
    {
      if presented.None? {
        return None;
      }
      var t := presented.value;
      ghost var next := Sessions.RefreshSession(View(), presented, jti);
      RefreshMeans(View(), t, jti);
      if t.jti in consumed {
        RevokeWholeFamily(t.familyId);
        assert next == Refreshed(View(), false);
        return None;
      }
      consumed := consumed + {t.jti};
      if t.sessionToken !in sessions {
        assert next == Refreshed(View(), false);
        return None;
      }
      refresh := IssueTokensForLoadedSession(sessions[t.sessionToken], jti);
      assert next == Refreshed(View(), true) && refresh == Some(RefreshToken(jti, t.familyId, t.sessionToken));
    }
  }

  lemma {:induction false} RemoveAbsent(s: seq<string>, x: string)
    requires x !in s
    ensures RemoveFirst(s, x) == s
  {
    if s != [] {
      RemoveAbsent(s[1..], x);
    }
  }
}
