/** What every run of whole operations keeps, and what becomes of a family once a consumed token is presented. */
module SessionTheorems {
  import opened Options
  import opened Sessions

  type Live = map<string, Session>

  // ----- the invariant, index by index -----

  ghost predicate SessionsOk(live: Live, ids: set<string>) {
    forall t | t in live ::
      live[t].token == t && t in ids && live[t].familyId.Some? && live[t].familyId.value in ids
  }

  ghost predicate NoRepeats(s: seq<string>) {
    forall i, j | 0 <= i < j < |s| :: s[i] != s[j]
  }

  function Listed(subjects: map<string, seq<string>>, s: string): seq<string> {
    if s in subjects then subjects[s] else []
  }

  ghost predicate LiveAreListed(live: Live, subjects: map<string, seq<string>>) {
    forall t | t in live :: t in Listed(subjects, live[t].subject)
  }

  ghost predicate ListedAreLive(live: Live, subjects: map<string, seq<string>>) {
    forall s, t | s in subjects && t in subjects[s] :: t in live && live[t].subject == s
  }

  ghost predicate NothingTwice(subjects: map<string, seq<string>>) {
    forall s | s in subjects :: NoRepeats(subjects[s])
  }

  /** The subject index lists exactly the live sessions of each subject, each once. */
  ghost predicate SubjectsOk(live: Live, subjects: map<string, seq<string>>) {
    LiveAreListed(live, subjects) && ListedAreLive(live, subjects) && NothingTwice(subjects)
  }

  predicate InFamily(live: Live, t: string, f: string) {
    t in live && live[t].familyId == Some(f)
  }

  ghost predicate OnePerFamily(live: Live) {
    forall t, u | t in live && u in live && live[t].familyId == live[u].familyId :: t == u
  }

  /** A family blob holds exactly the live session of that family. */
  ghost predicate FamiliesOk(live: Live, families: map<string, Family>) {
    forall f | f in families ::
      |families[f].sessionTokens| == 1 && InFamily(live, families[f].sessionTokens[0], f)
  }

  /** Signed tokens have identifiers of their own; consumed ones were signed. */
  ghost predicate MintedOk(minted: set<RefreshToken>, consumed: set<string>, ids: set<string>) {
    (forall k | k in minted :: k.jti in ids && k.familyId in ids && k.sessionToken in ids) &&
    (forall k, m | k in minted && m in minted && k.jti == m.jti :: k == m) &&
    (forall j | j in consumed :: exists k | k in minted :: k.jti == j)
  }

  /** A signed token names the family of its session. */
  ghost predicate TokensOk(live: Live, minted: set<RefreshToken>) {
    forall k | k in minted && k.sessionToken in live :: live[k.sessionToken].familyId == Some(k.familyId)
  }

  /** A family with a live session and a signed token has its blob; `skip` is a family about to get it back. */
  ghost predicate BlobsExcept(live: Live, families: map<string, Family>, minted: set<RefreshToken>, skip: Option<string>) {
    forall k, t | k in minted && t in live && live[t].familyId == Some(k.familyId) && skip != Some(k.familyId) ::
      k.familyId in families
  }

  ghost predicate InvExcept(st: State, skip: Option<string>) {
    SessionsOk(st.sessions, st.ids) && SubjectsOk(st.sessions, st.subjects) && OnePerFamily(st.sessions) &&
    FamiliesOk(st.sessions, st.families) && MintedOk(st.minted, st.consumed, st.ids) &&
    TokensOk(st.sessions, st.minted) && BlobsExcept(st.sessions, st.families, st.minted, skip)
  }

  ghost predicate Inv(st: State) {
    InvExcept(st, None)
  }

  // ----- the subject index -----

  lemma {:induction false} RemoveFirstMembers(s: seq<string>, x: string)
    requires NoRepeats(s)
    ensures NoRepeats(RemoveFirst(s, x))
    ensures forall y :: y in RemoveFirst(s, x) <==> y in s && y != x
  {
    if s != [] {
      assert forall y :: y in s <==> y == s[0] || y in s[1..];
      forall y | y in s[1..] ensures y != s[0] {
        var i :| 0 <= i < |s[1..]| && s[1..][i] == y;
        assert s[i + 1] == y;
      }
      if s[0] != x {
        RemoveFirstMembers(s[1..], x);
        var rest := RemoveFirst(s[1..], x);
        forall j | 0 <= j < |rest| ensures rest[j] != s[0] {
          assert rest[j] in rest;
        }
      }
    }
  }

  /** A session is added together with its entry in the subject index. */
  lemma AddSubject(live: Live, subjects: map<string, seq<string>>, session: Session)
    requires SubjectsOk(live, subjects) && session.token !in live
    ensures session.token !in Listed(subjects, session.subject)
    ensures SubjectsOk(live[session.token := session],
                       subjects[session.subject := Listed(subjects, session.subject) + [session.token]])
  {
    var listed := Listed(subjects, session.subject);
    var subjects' := subjects[session.subject := listed + [session.token]];
    assert session.token !in listed;
    forall i | 0 <= i < |listed| ensures listed[i] != session.token { assert listed[i] in listed; }
    assert NoRepeats(listed + [session.token]);
    forall t | t in live ensures t in Listed(subjects', live[t].subject) {
      assert t in Listed(subjects, live[t].subject);
    }
  }

  /** A session is removed together with its entry in the subject index. */
  lemma RemoveSubject(live: Live, subjects: map<string, seq<string>>, token: string)
    requires SubjectsOk(live, subjects) && token in live
    ensures var s := live[token].subject;
            s in subjects && token in subjects[s] &&
            SubjectsOk(live - {token}, subjects[s := RemoveFirst(subjects[s], token)])
  {
    var s := live[token].subject;
    assert token in Listed(subjects, s);
    assert NoRepeats(subjects[s]);
    RemoveFirstMembers(subjects[s], token);
    OnlyLiveListed(live, subjects, token, RemoveFirst(subjects[s], token));
  }

  lemma OnlyLiveListed(live: Live, subjects: map<string, seq<string>>, token: string, rest: seq<string>)
    requires ListedAreLive(live, subjects) && token in live && live[token].subject in subjects
    requires forall y :: y in rest <==> y in subjects[live[token].subject] && y != token
    ensures ListedAreLive(live - {token}, subjects[live[token].subject := rest])
  {
  }

  // ----- the family index -----

  lemma AddToFamilies(live: Live, families: map<string, Family>, minted: set<RefreshToken>, ids: set<string>, session: Session, f: string)
    requires SessionsOk(live, ids) && OnePerFamily(live) && FamiliesOk(live, families) && TokensOk(live, minted)
    requires BlobsExcept(live, families, minted, None) && session.token !in ids && f !in ids && session.familyId == Some(f)
    requires forall k | k in minted :: k.familyId in ids && k.sessionToken in ids
    ensures var live' := live[session.token := session];
            OnePerFamily(live') && FamiliesOk(live', families) && TokensOk(live', minted) &&
            BlobsExcept(live', families, minted, None)
  {
  }

  lemma RemoveFromFamilies(live: Live, families: map<string, Family>, minted: set<RefreshToken>, token: string, f: string)
    requires OnePerFamily(live) && FamiliesOk(live, families) && TokensOk(live, minted)
    requires BlobsExcept(live, families, minted, None) && InFamily(live, token, f)
    ensures OnePerFamily(live - {token}) && FamiliesOk(live - {token}, families - {f}) && TokensOk(live - {token}, minted)
    ensures BlobsExcept(live - {token}, families - {f}, minted, None)
  {
    forall g | g in families - {f} ensures InFamily(live - {token}, families[g].sessionTokens[0], g) {
      assert InFamily(live, families[g].sessionTokens[0], g);
    }
  }

  lemma SwapInFamilies(live: Live, families: map<string, Family>, minted: set<RefreshToken>, ids: set<string>,
                       token: string, renewed: Session, f: string)
    requires SessionsOk(live, ids) && OnePerFamily(live) && FamiliesOk(live, families) && TokensOk(live, minted)
    requires BlobsExcept(live, families, minted, None) && InFamily(live, token, f)
    requires renewed.token !in ids && renewed.familyId == Some(f) && forall k | k in minted :: k.sessionToken in ids
    ensures var live' := live[renewed.token := renewed] - {token};
            OnePerFamily(live') && FamiliesOk(live', families - {f}) && TokensOk(live', minted) &&
            BlobsExcept(live', families - {f}, minted, Some(f))
  {
    var live' := live[renewed.token := renewed] - {token};
    RemoveFromFamilies(live, families, minted, token, f);
    forall g | g in families - {f} ensures InFamily(live', families[g].sessionTokens[0], g) {
      assert InFamily(live - {token}, families[g].sessionTokens[0], g);
    }
    forall k, t | k in minted && t in live' && live'[t].familyId == Some(k.familyId) && k.familyId != f
      ensures k.familyId in families - {f}
    {
      assert t in live - {token};
    }
  }

  lemma IssueInFamilies(live: Live, families: map<string, Family>, minted: set<RefreshToken>,
                        token: string, f: string, jti: string, jtis: seq<string>)
    requires OnePerFamily(live) && FamiliesOk(live, families) && TokensOk(live, minted) && InFamily(live, token, f)
    requires BlobsExcept(live, families, minted, Some(f))
    ensures var families', minted' := families[f := Family(jtis, [token])], minted + {RefreshToken(jti, f, token)};
            FamiliesOk(live, families') && TokensOk(live, minted') && BlobsExcept(live, families', minted', None)
  {
    forall g | g in families ensures |families[g].sessionTokens| == 1 && InFamily(live, families[g].sessionTokens[0], g) {}
  }

  lemma IssueInMinted(minted: set<RefreshToken>, consumed: set<string>, ids: set<string>, k: RefreshToken)
    requires MintedOk(minted, consumed, ids) && k.jti !in ids && k.familyId in ids && k.sessionToken in ids
    ensures MintedOk(minted + {k}, consumed, ids + {k.jti})
  {
    forall j | j in consumed ensures exists m | m in minted + {k} :: m.jti == j {
      var m :| m in minted && m.jti == j;
      assert m in minted + {k};
    }
  }

  // ----- the operations -----

  lemma {:induction false} CreateKeeps(st: State, subject: string, token: string, f: string, data: string)
    requires Inv(st) && token !in st.ids && f !in st.ids && token != f
    ensures Inv(CreateSession(st, subject, token, f, data))
  {
    var session := Session(token, subject, Some(f), data);
    AddSubject(st.sessions, st.subjects, session);
    AddToFamilies(st.sessions, st.families, st.minted, st.ids, session, f);
  }

  lemma {:induction false} UpdateKeeps(st: State, token: string, subject: string, data: string)
    requires Inv(st)
    ensures var next := UpdateSession(st, token, subject, data);
            Inv(OrSame(st, next)) &&
            (next.Some? ==> next.value == st.(sessions := st.sessions[token := st.sessions[token].(data := data)]))
  {
    var next := UpdateSession(st, token, subject, data);
    if next.Some? {
      assert token in Listed(st.subjects, subject);
      var live' := st.sessions[token := st.sessions[token].(data := data)];
      assert next.value == st.(sessions := live');
      forall f | f in st.families ensures InFamily(live', st.families[f].sessionTokens[0], f) {
        assert InFamily(st.sessions, st.families[f].sessionTokens[0], f);
      }
    }
  }

  /** Without its one session a family's blob goes; other blobs stay. */
  lemma FamilyWithout(st: State, f: string, token: string)
    requires OnePerFamily(st.sessions) && FamiliesOk(st.sessions, st.families) && InFamily(st.sessions, token, f)
    ensures RemoveSessionFromFamily(st, f, token).families == st.families - {f}
  {
    if f in st.families {
      var tokens := st.families[f].sessionTokens;
      assert InFamily(st.sessions, tokens[0], f);
      assert tokens == [token] && tokens[1..] == [];
    } else {
      assert st.families - {f} == st.families;
    }
  }

  /** A family's session, its index entry and its blob removed: what deletion and revocation come to. */
  function Without(st: State, token: string, f: string): State
    requires token in st.sessions
  {
    var s := st.sessions[token].subject;
    st.(sessions := st.sessions - {token},
        subjects := st.subjects[s := RemoveFirst(SubjectSessions(st, s), token)],
        families := st.families - {f})
  }

  lemma {:induction false} WithoutKeeps(st: State, token: string, f: string)
    requires Inv(st) && InFamily(st.sessions, token, f)
    ensures Inv(Without(st, token, f))
    ensures forall t, g :: InFamily(Without(st, token, f).sessions, t, g) <==> InFamily(st.sessions, t, g) && g != f
  {
    RemoveSubject(st.sessions, st.subjects, token);
    RemoveFromFamilies(st.sessions, st.families, st.minted, token, f);
  }

  lemma {:induction false} DeleteIsWithout(st: State, token: string)
    requires Inv(st) && token in st.sessions
    ensures DeleteSession(st, token) == Without(st, token, st.sessions[token].familyId.value)
  {
    var f := st.sessions[token].familyId.value;
    RemoveSubject(st.sessions, st.subjects, token);
    FamilyWithout(st, f, token);
  }

  lemma {:induction false} IssueKeeps(st: State, token: string, jti: string)
    requires token in st.sessions && jti !in st.ids && InvExcept(st, st.sessions[token].familyId)
    ensures var next := IssueForLoaded(st, st.sessions[token], jti);
            next.Some? && Inv(next.value) && next.value.sessions == st.sessions && next.value.consumed == st.consumed
  {
    var f := st.sessions[token].familyId.value;
    var blob := ReadFamily(st, f);
    assert (if token in blob.sessionTokens then blob.sessionTokens else blob.sessionTokens + [token]) == [token] by {
      if f in st.families {
        assert InFamily(st.sessions, blob.sessionTokens[0], f);
        assert blob.sessionTokens == [token];
      }
    }
    var jtis := if jti in blob.jtis then blob.jtis else blob.jtis + [jti];
    IssueInFamilies(st.sessions, st.families, st.minted, token, f, jti, jtis);
    IssueInMinted(st.minted, st.consumed, st.ids, RefreshToken(jti, f, token));
  }

  /** The state of a rotation just before its tokens are issued: the two sessions swapped, no blob. */
  function Swapped(st: State, token: string, renewed: Session, f: string): State
    requires token in st.sessions && renewed.familyId.Some?
  {
    var s := renewed.subject;
    var listed := SubjectSessions(st, s) + [renewed.token];
    st.(sessions := st.sessions[renewed.token := renewed] - {token},
        subjects := st.subjects[s := listed][s := RemoveFirst(listed, token)],
        families := st.families - {renewed.familyId.value},
        ids := st.ids + {renewed.token, f})
  }

  lemma {:induction false} RotateIsSwap(st: State, token: string, newToken: string, f: string, jti: string, data: string)
    requires Inv(st) && token in st.sessions && newToken !in st.ids
    ensures var renewed := Session(newToken, st.sessions[token].subject, st.sessions[token].familyId, data);
            RotateSession(st, token, newToken, f, jti, data) == IssueForLoaded(Swapped(st, token, renewed, f), renewed, jti)
  {
    var session := st.sessions[token];
    var g := session.familyId.value;
    var renewed := Session(newToken, session.subject, session.familyId, data);
    AddSubject(st.sessions, st.subjects, renewed);
    var st1 := st.(sessions := st.sessions[newToken := renewed], ids := st.ids + {newToken, f});
    var st2 := EnsureSubjectSession(st1, session.subject, newToken);
    assert token in Listed(st.subjects, session.subject);
    var st3 := RemoveSubjectSession(DropSession(st2, token), session.subject, token);
    FamilyWithout(st, g, token);
  }

  lemma {:induction false} SwapKeeps(st: State, token: string, renewed: Session, f: string)
    requires Inv(st) && token in st.sessions && renewed.token !in st.ids && renewed.familyId.Some?
    requires renewed.familyId == st.sessions[token].familyId && renewed.subject == st.sessions[token].subject
    ensures InvExcept(Swapped(st, token, renewed, f), renewed.familyId)
  {
    var live1 := st.sessions[renewed.token := renewed];
    AddSubject(st.sessions, st.subjects, renewed);
    var listed := Listed(st.subjects, renewed.subject) + [renewed.token];
    RemoveSubject(live1, st.subjects[renewed.subject := listed], token);
    SwapInFamilies(st.sessions, st.families, st.minted, st.ids, token, renewed, renewed.familyId.value);
  }

  /** The rotated session takes the old one's place in its family, then gets its own token. */
  lemma {:induction false} RotateKeeps(st: State, token: string, newToken: string, f: string, jti: string, data: string)
    requires Inv(st) && token in st.sessions && newToken !in st.ids
    requires f !in st.ids && jti !in st.ids && newToken != jti && f != jti
    ensures var next := RotateSession(st, token, newToken, f, jti, data);
            var renewed := Session(newToken, st.sessions[token].subject, st.sessions[token].familyId, data);
            next.Some? && Inv(next.value) && next.value.consumed == st.consumed &&
            next.value.sessions == st.sessions[newToken := renewed] - {token}
  {
    var renewed := Session(newToken, st.sessions[token].subject, st.sessions[token].familyId, data);
    RotateIsSwap(st, token, newToken, f, jti, data);
    SwapKeeps(st, token, renewed, f);
    var st1 := Swapped(st, token, renewed, f);
    assert newToken in st1.sessions && st1.sessions[newToken] == renewed;
    IssueKeeps(st1, newToken, jti);
  }

  // ----- revocation -----

  /** Revoking a family removes its one session from all three indexes. */
  lemma {:induction false} RevokeIsWithout(st: State, f: string)
    requires Inv(st) && f in st.families
    ensures var token := st.families[f].sessionTokens[0];
            InFamily(st.sessions, token, f) && RevokeFamily(st, f) == Without(st, token, f)
  {
    var tokens := st.families[f].sessionTokens;
    assert tokens == [tokens[0]] && tokens[1..] == [];
    assert InFamily(st.sessions, tokens[0], f);
    RemoveSubject(st.sessions, st.subjects, tokens[0]);
    var st1 := RemoveSubjectSession(DropSession(st, tokens[0]), st.sessions[tokens[0]].subject, tokens[0]);
    assert RevokeTokens(st, tokens) == RevokeTokens(st1, []) == st1;
  }

  /** A family none of whose sessions is live, and none will be. */
  ghost predicate Dead(st: State, f: string) {
    f in st.ids && forall t :: !InFamily(st.sessions, t, f)
  }

  /** Revocation reaches every live session of a family that was ever issued a token, and no session of another family. */
  lemma {:induction false} RevokeKills(st: State, k: RefreshToken)
    requires Inv(st) && k in st.minted
    ensures var st' := RevokeFamily(st, k.familyId);
            Inv(st') && Dead(st', k.familyId) && k.familyId !in st'.families && st'.consumed == st.consumed &&
            forall t, g | g != k.familyId :: InFamily(st'.sessions, t, g) <==> InFamily(st.sessions, t, g)
  {
    if k.familyId in st.families {
      RevokeIsWithout(st, k.familyId);
      WithoutKeeps(st, st.families[k.familyId].sessionTokens[0], k.familyId);
    }
  }

  lemma {:induction false} ConsumeKeeps(st: State, k: RefreshToken)
    requires Inv(st) && k in st.minted
    ensures Inv(st.(consumed := st.consumed + {k.jti}))
  {
  }

  lemma {:induction false} RefreshKeeps(st: State, presented: Option<RefreshToken>, jti: string)
    requires Inv(st) && Legal(st, Refresh(presented, jti))
    ensures Inv(RefreshSession(st, presented, jti).state)
  {
    if presented.Some? {
      var k := presented.value;
      if k.jti in st.consumed {
        RevokeKills(st, k);
      } else {
        ConsumeKeeps(st, k);
        var st1 := st.(consumed := st.consumed + {k.jti});
        if k.sessionToken in st1.sessions {
          IssueKeeps(st1, k.sessionToken, jti);
        }
      }
    }
  }

  lemma {:induction false} StepKeeps(st: State, op: Op)
    requires Inv(st) && Legal(st, op)
    ensures Inv(Step(st, op))
  {
    match op
    case Create(subject, data, token, f) => CreateKeeps(st, subject, token, f, data);
    case Update(token, subject, data) => UpdateKeeps(st, token, subject, data);
    case CreateOrUpdate(known, subject, data, token, f) =>
      if known.Some? && known.value in st.sessions {
        UpdateKeeps(st, known.value, subject, data);
      } else {
        CreateKeeps(st, subject, token, f, data);
      }
    case Delete(token) =>
      if token in st.sessions {
        DeleteIsWithout(st, token);
        WithoutKeeps(st, token, st.sessions[token].familyId.value);
      }
    case Issue(token, jti) =>
      if token in st.sessions {
        IssueKeeps(st, token, jti);
      }
    case Rotate(token, data, newToken, f, jti) =>
      if token in st.sessions {
        RotateKeeps(st, token, newToken, f, jti, data);
      }
    case Refresh(presented, jti) => RefreshKeeps(st, presented, jti);
  }

  /** In every run of whole operations the three indexes agree, with at most one live session per family. */
  lemma {:induction false} RunsKeepInv(st: State, ops: seq<Op>)
    requires Inv(st) && LegalRun(st, ops)
    ensures Inv(After(st, ops))
    decreases |ops|
  {
    if ops != [] {
      StepKeeps(st, ops[0]);
      RunsKeepInv(Step(st, ops[0]), ops[1..]);
    }
  }

  lemma EmptyKeeps()
    ensures Inv(EMPTY)
  {
  }

  /** So the subject index can be read off the live sessions. */
  lemma ListedIffLive(st: State, s: string, t: string)
    requires SubjectsOk(st.sessions, st.subjects)
    ensures t in Listed(st.subjects, s) <==> t in st.sessions && st.sessions[t].subject == s
  {
  }

  /** Not consumed, of a live session, and registered with the family, which has this session alone. */
  predicate Redeemable(st: State, k: RefreshToken) {
    k.jti !in st.consumed && InFamily(st.sessions, k.sessionToken, k.familyId) && k.familyId in st.families &&
    k.jti in st.families[k.familyId].jtis && st.families[k.familyId].sessionTokens == [k.sessionToken]
  }

  /** No family loses the identifier of a token, and they stay in order. */
  predicate KeepsJtis(before: map<string, Family>, after: map<string, Family>) {
    forall f | f in before :: f in after && before[f].jtis <= after[f].jtis
  }

  lemma {:induction false} IssueMeans(st: State, token: string, jti: string)
    requires token in st.sessions && jti !in st.ids && InvExcept(st, st.sessions[token].familyId)
    ensures var next := IssueForLoaded(st, st.sessions[token], jti);
            next.Some? && next.value.subjects == st.subjects &&
            Redeemable(next.value, RefreshToken(jti, st.sessions[token].familyId.value, token)) &&
            KeepsJtis(st.families, next.value.families)
  {
    IssueKeeps(st, token, jti);
    var next := IssueForLoaded(st, st.sessions[token], jti).value;
    var f := st.sessions[token].familyId.value;
    assert InFamily(next.sessions, next.families[f].sessionTokens[0], f);
    forall j | j in st.consumed ensures j in st.ids {
      var k :| k in st.minted && k.jti == j;
    }
  }

  lemma {:induction false} CreateMeans(st: State, subject: string, token: string, f: string, data: string)
    requires Inv(st) && token !in st.ids && f !in st.ids && token != f
    ensures var next := CreateSession(st, subject, token, f, data);
            token !in st.sessions && f !in next.families &&
            next.subjects == st.subjects[subject := Listed(st.subjects, subject) + [token]]
  {
    AddSubject(st.sessions, st.subjects, Session(token, subject, Some(f), data));
    forall g | g in st.families ensures g in st.ids {
      assert InFamily(st.sessions, st.families[g].sessionTokens[0], g);
    }
  }

  /** A deleted session is in no index, and the rest of every index stays. */
  lemma {:induction false} DeleteMeans(st: State, token: string)
    requires Inv(st)
    ensures var next := DeleteSession(st, token);
            Inv(next) && next.sessions == st.sessions - {token} && next.consumed == st.consumed &&
            (forall s, t :: t in Listed(next.subjects, s) <==> t in Listed(st.subjects, s) && t != token) &&
            (forall f | f in next.families :: token !in next.families[f].sessionTokens) &&
            (forall f | f in st.families && token !in st.families[f].sessionTokens ::
               f in next.families && next.families[f] == st.families[f])
  {
    var next := DeleteSession(st, token);
    StepKeeps(st, Delete(token));
    if token in st.sessions {
      DeleteIsWithout(st, token);
    }
    forall s, t ensures t in Listed(next.subjects, s) <==> t in Listed(st.subjects, s) && t != token {
      DeletedListed(st, next, token, s, t);
    }
    FamiliesAfterDelete(st, token);
    InNoFamily(next, token);
  }

  lemma DeletedListed(st: State, next: State, token: string, s: string, t: string)
    requires SubjectsOk(st.sessions, st.subjects) && SubjectsOk(next.sessions, next.subjects)
    requires next.sessions == st.sessions - {token}
    ensures t in Listed(next.subjects, s) <==> t in Listed(st.subjects, s) && t != token
  {
    ListedIffLive(st, s, t);
    ListedIffLive(next, s, t);
  }

  lemma InNoFamily(st: State, token: string)
    requires FamiliesOk(st.sessions, st.families) && token !in st.sessions
    ensures forall f | f in st.families :: token !in st.families[f].sessionTokens
  {
    forall f | f in st.families ensures token !in st.families[f].sessionTokens {
      assert InFamily(st.sessions, st.families[f].sessionTokens[0], f);
    }
  }

  lemma FamiliesAfterDelete(st: State, token: string)
    requires Inv(st)
    ensures forall f | f in st.families && token !in st.families[f].sessionTokens ::
              f in DeleteSession(st, token).families && DeleteSession(st, token).families[f] == st.families[f]
  {
    if token in st.sessions {
      DeleteIsWithout(st, token);
      forall f | f in st.families && token !in st.families[f].sessionTokens ensures st.sessions[token].familyId != Some(f) {
        assert InFamily(st.sessions, st.families[f].sessionTokens[0], f);
      }
    }
  }

  lemma RotatedListed(st: State, next: State, token: string, newToken: string, renewed: Session, s: string, t: string)
    requires SubjectsOk(st.sessions, st.subjects) && SubjectsOk(next.sessions, next.subjects)
    requires token in st.sessions && newToken !in st.sessions && renewed.subject == st.sessions[token].subject
    requires next.sessions == st.sessions[newToken := renewed] - {token}
    ensures t in Listed(next.subjects, s) <==>
            (t in Listed(st.subjects, s) && t != token) || (t == newToken && token in Listed(st.subjects, s))
  {
    ListedIffLive(st, s, t);
    ListedIffLive(st, s, token);
    ListedIffLive(next, s, t);
  }

  /** After a rotation the subject index has the new session where it had the old one. */
  lemma {:induction false} RotateMeans(st: State, token: string, newToken: string, f: string, jti: string, data: string)
    requires Inv(st) && token in st.sessions && Legal(st, Rotate(token, data, newToken, f, jti))
    ensures var next := RotateSession(st, token, newToken, f, jti, data);
            var renewed := Session(newToken, st.sessions[token].subject, st.sessions[token].familyId, data);
            next.Some? && Inv(next.value) && next.value.consumed == st.consumed &&
            next.value.sessions == st.sessions[newToken := renewed] - {token} &&
            (forall s, t ::
              t in Listed(next.value.subjects, s) <==>
              (t in Listed(st.subjects, s) && t != token) || (t == newToken && token in Listed(st.subjects, s)))
  {
    RotateKeeps(st, token, newToken, f, jti, data);
    var next := RotateSession(st, token, newToken, f, jti, data).value;
    var renewed := Session(newToken, st.sessions[token].subject, st.sessions[token].familyId, data);
    forall s, t ensures t in Listed(next.subjects, s) <==>
                        (t in Listed(st.subjects, s) && t != token) || (t == newToken && token in Listed(st.subjects, s)) {
      RotatedListed(st, next, token, newToken, renewed, s, t);
    }
  }

  lemma {:induction false} RotateIssues(st: State, token: string, newToken: string, f: string, jti: string, data: string)
    requires Inv(st) && token in st.sessions && Legal(st, Rotate(token, data, newToken, f, jti))
    ensures var next := RotateSession(st, token, newToken, f, jti, data);
            next.Some? && Redeemable(next.value, RefreshToken(jti, st.sessions[token].familyId.value, newToken))
  {
    var renewed := Session(newToken, st.sessions[token].subject, st.sessions[token].familyId, data);
    RotateIsSwap(st, token, newToken, f, jti, data);
    SwapKeeps(st, token, renewed, f);
    var st1 := Swapped(st, token, renewed, f);
    assert newToken in st1.sessions && st1.sessions[newToken] == renewed;
    IssueMeans(st1, newToken, jti);
  }

  lemma {:induction false} FirstUse(st: State, k: RefreshToken, jti: string)
    requires Inv(st) && Legal(st, Refresh(Some(k), jti)) && k.jti !in st.consumed
    ensures var r := RefreshSession(st, Some(k), jti);
            r.state.consumed == st.consumed + {k.jti} && r.state.sessions == st.sessions && r.state.subjects == st.subjects &&
            (r.issued <==> k.sessionToken in st.sessions) &&
            (r.issued ==> Redeemable(r.state, RefreshToken(jti, k.familyId, k.sessionToken))) &&
            KeepsJtis(st.families, r.state.families)
  {
    ConsumeKeeps(st, k);
    var st1 := st.(consumed := st.consumed + {k.jti});
    if k.sessionToken in st1.sessions {
      IssueKeeps(st1, k.sessionToken, jti);
      IssueMeans(st1, k.sessionToken, jti);
    }
  }

  /** The first use of a token issues a redeemable one if its session is live; any other use ends its family, and only it. */
  lemma {:induction false} RefreshMeans(st: State, k: RefreshToken, jti: string)
    requires Inv(st) && Legal(st, Refresh(Some(k), jti))
    ensures var r := RefreshSession(st, Some(k), jti);
            Inv(r.state) && r.state.consumed == st.consumed + {k.jti} &&
            (r.issued <==> k.jti !in st.consumed && k.sessionToken in st.sessions) &&
            (k.sessionToken in st.sessions ==>
               st.sessions[k.sessionToken].token == k.sessionToken && st.sessions[k.sessionToken].familyId == Some(k.familyId)) &&
            (r.issued ==> Redeemable(r.state, RefreshToken(jti, k.familyId, k.sessionToken))) &&
            (k.jti !in st.consumed ==>
               r.state.sessions == st.sessions && r.state.subjects == st.subjects && KeepsJtis(st.families, r.state.families)) &&
            (k.jti in st.consumed ==>
               Dead(r.state, k.familyId) &&
               forall t, g | g != k.familyId :: InFamily(r.state.sessions, t, g) <==> InFamily(st.sessions, t, g))
  {
    RefreshKeeps(st, Some(k), jti);
    if k.jti in st.consumed {
      RevokeKills(st, k);
    } else {
      FirstUse(st, k, jti);
    }
  }

  // ----- reuse -----

  /** What a presentation of a signed token does: the first one consumes it, any other one ends its family. */
  lemma {:induction false} RefreshOutcome(st: State, k: RefreshToken, jti: string)
    requires Inv(st) && Legal(st, Refresh(Some(k), jti))
    ensures var r := RefreshSession(st, Some(k), jti);
            k.jti in r.state.consumed &&
            (r.issued <==> k.jti !in st.consumed && k.sessionToken in st.sessions) &&
            (r.issued ==> r.state.sessions == st.sessions && RefreshToken(jti, k.familyId, k.sessionToken) in r.state.minted) &&
            (k.jti in st.consumed ==> Dead(r.state, k.familyId))
  {
    if k.jti in st.consumed {
      RevokeKills(st, k);
    } else {
      ConsumeKeeps(st, k);
      var st1 := st.(consumed := st.consumed + {k.jti});
      if k.sessionToken in st1.sessions {
        IssueKeeps(st1, k.sessionToken, jti);
      }
    }
  }

  /** No operation brings a dead family back. */
  lemma {:induction false} DeadStaysDead(st: State, op: Op, f: string)
    requires Inv(st) && Legal(st, op) && Dead(st, f)
    ensures Dead(Step(st, op), f)
  {
    match op
    case Create(subject, data, token, g) =>
      assert Step(st, op).sessions == st.sessions[token := Session(token, subject, Some(g), data)];
      NewSessionElsewhere(st, Session(token, subject, Some(g), data), f);
    case Update(token, subject, data) => UpdateKeepsDead(st, token, subject, data, f);
    case CreateOrUpdate(known, subject, data, token, g) =>
      if known.Some? && known.value in st.sessions {
        UpdateKeepsDead(st, known.value, subject, data, f);
      } else {
        NewSessionElsewhere(st, Session(token, subject, Some(g), data), f);
      }
    case Delete(token) =>
      if token in st.sessions {
        DeleteIsWithout(st, token);
        FewerSessions(st, Step(st, op), f);
      }
    case Issue(token, jti) =>
      FewerSessions(st, Step(st, op), f);
    case Rotate(token, data, newToken, g, jti) =>
      if token in st.sessions {
        RotateIsSwap(st, token, newToken, g, jti, data);
        assert !InFamily(st.sessions, token, f);
        var renewed := Session(newToken, st.sessions[token].subject, st.sessions[token].familyId, data);
        NewSessionElsewhere(st, renewed, f);
        FewerSessions(st.(sessions := st.sessions[newToken := renewed]), Step(st, op), f);
      }
    case Refresh(presented, jti) =>
      if presented.Some? && presented.value.jti in st.consumed {
        if presented.value.familyId in st.families {
          RevokeIsWithout(st, presented.value.familyId);
        }
      }
      FewerSessions(st, Step(st, op), f);
  }

  lemma FewerSessions(a: State, b: State, f: string)
    requires Dead(a, f) && a.ids <= b.ids && forall t | t in b.sessions :: t in a.sessions && b.sessions[t] == a.sessions[t]
    ensures Dead(b, f)
  {
    forall t ensures !InFamily(b.sessions, t, f) {
      assert !InFamily(a.sessions, t, f);
    }
  }

  lemma NewSessionElsewhere(st: State, session: Session, f: string)
    requires Dead(st, f) && session.familyId != Some(f)
    ensures Dead(st.(sessions := st.sessions[session.token := session]), f)
  {
    var live := st.sessions[session.token := session];
    forall t ensures !InFamily(live, t, f) {
      assert !InFamily(st.sessions, t, f);
    }
  }

  lemma UpdateKeepsDead(st: State, token: string, subject: string, data: string, f: string)
    requires Inv(st) && Dead(st, f)
    ensures Dead(OrSame(st, UpdateSession(st, token, subject, data)), f)
  {
    if token in st.sessions {
      assert !InFamily(st.sessions, token, f);
      NewSessionElsewhere(st, st.sessions[token].(data := data), f);
    }
  }

  /** A token of a dead family is refused, consumed or not. */
  lemma DeadRefuses(st: State, k: RefreshToken, jti: string)
    requires Inv(st) && Legal(st, Refresh(Some(k), jti)) && Dead(st, k.familyId)
    ensures !RefreshSession(st, Some(k), jti).issued
  {
    assert !InFamily(st.sessions, k.sessionToken, k.familyId);
  }

  lemma {:induction false} DeadAfterRun(st: State, ops: seq<Op>, f: string)
    requires Inv(st) && LegalRun(st, ops) && Dead(st, f)
    ensures Inv(After(st, ops)) && Dead(After(st, ops), f)
    decreases |ops|
  {
    if ops != [] {
      StepKeeps(st, ops[0]);
      DeadStaysDead(st, ops[0], f);
      DeadAfterRun(Step(st, ops[0]), ops[1..], f);
    }
  }

  /**
   * Once a consumed token is presented again, whatever whole operations follow: its family has no live session
   * then, and every later presentation of any of the family's tokens is refused.
   */
  lemma {:induction false} ReuseEndsFamily(st: State, k: RefreshToken, jti: string, ops: seq<Op>, later: RefreshToken, jti': string)
    requires Inv(st) && Legal(st, Refresh(Some(k), jti)) && k.jti in st.consumed
    requires var replayed := RefreshSession(st, Some(k), jti).state;
             LegalRun(replayed, ops) && Legal(After(replayed, ops), Refresh(Some(later), jti')) && later.familyId == k.familyId
    ensures var end := After(RefreshSession(st, Some(k), jti).state, ops);
            (forall t :: !InFamily(end.sessions, t, k.familyId)) && !RefreshSession(end, Some(later), jti').issued
  {
    RefreshOutcome(st, k, jti);
    StepKeeps(st, Refresh(Some(k), jti));
    DeadAfterRun(RefreshSession(st, Some(k), jti).state, ops, k.familyId);
    DeadRefuses(After(RefreshSession(st, Some(k), jti).state, ops), later, jti');
  }
}
