/**
 * The session service as a state machine: three indexes in one cache (sessions, sessions per subject, refresh-token
 * families), the set of consumed token identifiers, and what each whole operation does to them.
 */
module Sessions {
  import opened Options

  /** `data` stands for what the indexes do not depend on: claims, factors, times. */
  datatype Session = Session(token: string, subject: string, familyId: Option<string>, data: string)

  datatype Family = Family(jtis: seq<string>, sessionTokens: seq<string>)

  datatype RefreshToken = RefreshToken(jti: string, familyId: string, sessionToken: string)

  /** `minted` and `ids` are bookkeeping of the model: every refresh token signed, every identifier drawn. */
  datatype State = State(
    sessions: map<string, Session>,
    subjects: map<string, seq<string>>,
    families: map<string, Family>,
    consumed: set<string>,
    minted: set<RefreshToken>,
    ids: set<string>)

  const EMPTY := State(map[], map[], map[], {}, {}, {})

  // ----- index helpers -----

  function SubjectSessions(st: State, subject: string): seq<string> {
    if subject in st.subjects then st.subjects[subject] else []
  }

  /** `splice` at `indexOf`: the first occurrence goes, if there is one. */
  function RemoveFirst(s: seq<string>, x: string): seq<string> {
    if s == [] then []
    else if s[0] == x then s[1..]
    else [s[0]] + RemoveFirst(s[1..], x)
  }

  function EnsureSubjectSession(st: State, subject: string, token: string): State {
    if token in SubjectSessions(st, subject) then st
    else st.(subjects := st.subjects[subject := SubjectSessions(st, subject) + [token]])
  }

  function RemoveSubjectSession(st: State, subject: string, token: string): State {
    if token in SubjectSessions(st, subject)
    then st.(subjects := st.subjects[subject := RemoveFirst(SubjectSessions(st, subject), token)])
    else st
  }

  function ReadFamily(st: State, f: string): Family {
    if f in st.families then st.families[f] else Family([], [])
  }

  function AddJtiToFamily(st: State, f: string, jti: string, token: string): State {
    var blob := ReadFamily(st, f);
    var jtis := if jti in blob.jtis then blob.jtis else blob.jtis + [jti];
    var tokens := if token in blob.sessionTokens then blob.sessionTokens else blob.sessionTokens + [token];
    st.(families := st.families[f := Family(jtis, tokens)])
  }

  function RemoveSessionFromFamily(st: State, f: string, token: string): State {
    if f !in st.families then st
    else
      var tokens := RemoveFirst(st.families[f].sessionTokens, token);
      if tokens == [] then st.(families := st.families - {f})
      else st.(families := st.families[f := st.families[f].(sessionTokens := tokens)])
  }

  function DropSession(st: State, token: string): State {
    st.(sessions := st.sessions - {token})
  }

  // ----- operations; `None` stands for the 401 they throw -----

  function CreateSession(st: State, subject: string, token: string, f: string, data: string): State {
    var session := Session(token, subject, Some(f), data);
    EnsureSubjectSession(st.(sessions := st.sessions[token := session], ids := st.ids + {token, f}), subject, token)
  }

  function UpdateSession(st: State, token: string, subject: string, data: string): Option<State> {
    if token !in st.sessions || st.sessions[token].subject != subject then None
    else
      var session := st.sessions[token].(data := data);
      Some(EnsureSubjectSession(st.(sessions := st.sessions[token := session]), subject, token))
  }

  function DeleteSession(st: State, token: string): State {
    if token !in st.sessions then st
    else
      var session := st.sessions[token];
      var st1 := RemoveSubjectSession(DropSession(st, token), session.subject, token);
      if session.familyId.None? then st1 else RemoveSessionFromFamily(st1, session.familyId.value, token)
  }

  /** Mints a refresh token for a loaded session and registers it; throws when the session has no family. */
  function IssueForLoaded(st: State, session: Session, jti: string): Option<State> {
    if session.familyId.None? then None
    else
      var f := session.familyId.value;
      var token := RefreshToken(jti, f, session.token);
      Some(AddJtiToFamily(st.(minted := st.minted + {token}, ids := st.ids + {jti}), f, jti, session.token))
  }

  function IssueToken(st: State, token: string, jti: string): Option<State> {
    if token !in st.sessions then None else IssueForLoaded(st, st.sessions[token], jti)
  }

  /** `f` is the family drawn in case the old session has none. */
  function RotateSession(st: State, token: string, newToken: string, f: string, jti: string, data: string): Option<State> {
    if token !in st.sessions then None
    else
      var session := st.sessions[token];
      var familyId := if session.familyId.Some? then session.familyId.value else f;
      var renewed := Session(newToken, session.subject, Some(familyId), data);
      var st1 := st.(sessions := st.sessions[newToken := renewed], ids := st.ids + {newToken, f});
      var st2 := EnsureSubjectSession(st1, session.subject, newToken);
      var st3 := RemoveSubjectSession(DropSession(st2, token), session.subject, token);
      IssueForLoaded(RemoveSessionFromFamily(st3, familyId, token), renewed, jti)
  }

  function RevokeTokens(st: State, tokens: seq<string>): State
    decreases |tokens|
  {
    if tokens == [] then st
    else
      var dropped := DropSession(st, tokens[0]);
      var st1 := if tokens[0] in st.sessions
                 then RemoveSubjectSession(dropped, st.sessions[tokens[0]].subject, tokens[0]) else dropped;
      RevokeTokens(st1, tokens[1..])
  }

  function RevokeFamily(st: State, f: string): State {
    if f !in st.families then st
    else
      var st1 := RevokeTokens(st, st.families[f].sessionTokens);
      st1.(families := st1.families - {f})
  }

  /** The state after a presentation of a refresh token, and whether new tokens were issued. */
  datatype Refreshed = Refreshed(state: State, issued: bool)

  /** `presented == None`: the text does not decode to a refresh token any more, or never did. */
  function RefreshSession(st: State, presented: Option<RefreshToken>, jti: string): Refreshed {
    if presented.None? then Refreshed(st, false)
    else
      var t := presented.value;
      if t.jti in st.consumed then Refreshed(RevokeFamily(st, t.familyId), false)
      else
        var st1 := st.(consumed := st.consumed + {t.jti});
        if t.sessionToken !in st1.sessions then Refreshed(st1, false)
        else
          var issued := IssueForLoaded(st1, st1.sessions[t.sessionToken], jti);
          if issued.None? then Refreshed(st1, false) else Refreshed(issued.value, true)
  }

  // ----- runs -----

  /** Arguments after the first of each operation's own are identifiers it draws. */
  datatype Op =
    | Create(subject: string, data: string, token: string, familyId: string)
    | Update(token: string, subject: string, data: string)
    | CreateOrUpdate(known: Option<string>, subject: string, data: string, token: string, familyId: string)
    | Delete(token: string)
    | Issue(token: string, jti: string)
    | Rotate(token: string, data: string, newToken: string, familyId: string, jti: string)
    | Refresh(presented: Option<RefreshToken>, jti: string)

  /** Identifiers are new and distinct; a token that decodes was signed by this service. */
  predicate Legal(st: State, op: Op) {
    match op
    case Create(_, _, token, f) => token !in st.ids && f !in st.ids && token != f
    case Update(_, _, _) => true
    case CreateOrUpdate(_, _, _, token, f) => token !in st.ids && f !in st.ids && token != f
    case Delete(_) => true
    case Issue(_, jti) => jti !in st.ids
    case Rotate(_, _, token, f, jti) =>
      token !in st.ids && f !in st.ids && jti !in st.ids && token != f && token != jti && f != jti
    case Refresh(presented, jti) => jti !in st.ids && (presented.Some? ==> presented.value in st.minted)
  }

  function OrSame(st: State, next: Option<State>): State {
    if next.Some? then next.value else st
  }

  function Step(st: State, op: Op): State {
    match op
    case Create(subject, data, token, f) => CreateSession(st, subject, token, f, data)
    case Update(token, subject, data) => OrSame(st, UpdateSession(st, token, subject, data))
    case CreateOrUpdate(known, subject, data, token, f) =>
      if known.Some? && known.value in st.sessions then OrSame(st, UpdateSession(st, known.value, subject, data))
      else CreateSession(st, subject, token, f, data)
    case Delete(token) => DeleteSession(st, token)
    case Issue(token, jti) => OrSame(st, IssueToken(st, token, jti))
    case Rotate(token, data, newToken, f, jti) => OrSame(st, RotateSession(st, token, newToken, f, jti, data))
    case Refresh(presented, jti) => RefreshSession(st, presented, jti).state
  }

  predicate LegalRun(st: State, ops: seq<Op>)
    decreases |ops|
  {
    ops == [] || (Legal(st, ops[0]) && LegalRun(Step(st, ops[0]), ops[1..]))
  }

  function After(st: State, ops: seq<Op>): State
    decreases |ops|
  {
    if ops == [] then st else After(Step(st, ops[0]), ops[1..])
  }
}
