/** The user list page: three pieces of state (`users`, `loading`, `error`),
    the one load it runs on mount, and what it renders from that state. */
module ApiUsers {
  import opened JsString
  import opened AddUserForm

  datatype Avatar = Avatar(name: string, url: string)

  datatype User = User(
    id: int,
    firstName: string,
    lastName: string,
    email: string,
    status: bool,
    birthday: string,
    skills: seq<string>,
    avatar: seq<Avatar>)

  /** What awaiting `getUsers()` gives: the decoded array, or a thrown error
      (network failure, a non-ok response or a body that is not JSON). */
  datatype FetchOutcome = Fetched(data: seq<User>) | FetchFailed

  const LoadErrorMessage: string := "Error al cargar los usuarios"
  const LoadingMessage: string := "Cargando usuarios..."

  // ---------------------------------------------------------------- state

  datatype PageState = PageState(users: seq<User>, loading: bool, error: string)

  /** The three `useState` initial values. */
  function InitialState(): (s: PageState)
    ensures s.users == [] && !s.loading && s.error == []
  {
    PageState([], false, [])
  }

  /** `setLoading(true)`, the first step of `fetchUsers`. */
  function LoadStarted(s: PageState): (r: PageState)
    ensures r.loading
    ensures r.users == s.users && r.error == s.error
  {
    s.(loading := true)
  }

  /** The rest of `fetchUsers` once `getUsers()` settles: the `try` or the
      `catch` branch, then the `finally`. */
  function LoadSettled(s: PageState, outcome: FetchOutcome): (r: PageState)
    ensures !r.loading
    ensures outcome.Fetched? ==> r.users == outcome.data && r.error == []
    ensures outcome.FetchFailed? ==> r.users == s.users && r.error == LoadErrorMessage
  {
    match outcome
    case Fetched(data) => PageState(data, false, [])
    case FetchFailed => s.(error := LoadErrorMessage, loading := false)
  }

  /** The page state; each method performs the `set...` calls of one handler, in order. */
  class UserList {
    var users: seq<User>
    var loading: bool
    var error: string

    function State(): PageState
      reads this
    {
      PageState(users, loading, error)
    }

    constructor ()
      ensures State() == InitialState()
    {
      users, loading, error := [], false, [];
    }

    /** `fetchUsers`, with the awaited `getUsers()` result passed in as `outcome`.
        `midway` is the state a render between the two halves would see. */
    method FetchUsers(outcome: FetchOutcome) returns (ghost midway: PageState)
      modifies this
      ensures midway == LoadStarted(old(State()))
      ensures State() == LoadSettled(midway, outcome)
    {
      loading := true;
      midway := State();
      match outcome {
        case Fetched(data) =>
          users := data;
          error := [];
        case FetchFailed =>
          error := LoadErrorMessage;
      }
      loading := false;
    }
  }

  // ---------------------------------------------------------------- render

  /** One `<tr>` of the table, each cell as text. */
  datatype Row = Row(
    id: int,
    firstName: string,
    lastName: string,
    email: string,
    statusLabel: string,
    skillsLabel: string)

  /** What the component returns. */
  datatype View = LoadingView(text: string) | ErrorView(message: string) | TableView(rows: seq<Row>)

  /** `user.status ? 'Activo' : 'Inactivo'`. */
  function StatusLabel(status: bool): (r: string)
    ensures r == "Activo" <==> status
    ensures r == "Inactivo" <==> !status
  {
    if status then "Activo" else "Inactivo"
  }

  /** `user.skills.join(', ')`. */
  function SkillsLabel(skills: seq<string>): (r: string)
    ensures skills == [] ==> r == []
    ensures |skills| == 1 ==> r == skills[0]
    ensures |skills| >= 2 ==> r == skills[0] + ", " + SkillsLabel(skills[1..])
    decreases |skills|
  {
    Join(skills, ", ")
  }

  function RowOf(u: User): (r: Row)
    ensures r.id == u.id && r.firstName == u.firstName && r.lastName == u.lastName
    ensures r.email == u.email
    ensures r.statusLabel == StatusLabel(u.status) && r.skillsLabel == SkillsLabel(u.skills)
  {
    Row(u.id, u.firstName, u.lastName, u.email, StatusLabel(u.status), SkillsLabel(u.skills))
  }

  /** `users.map(user => <tr>...</tr>)`: one row per user, in order. */
  function Rows(users: seq<User>): (r: seq<Row>)
    ensures |r| == |users|
    ensures forall k :: 0 <= k < |r| ==> r[k] == RowOf(users[k])
  {
    if users == [] then [] else [RowOf(users[0])] + Rows(users[1..])
  }

  /** The loading message wins, then a non-empty error, and only then the table. */
  function Render(s: PageState): (v: View)
    ensures v.LoadingView? <==> s.loading
    ensures v.ErrorView? <==> !s.loading && s.error != []
    ensures v.TableView? <==> !s.loading && s.error == []
    ensures v.LoadingView? ==> v.text == LoadingMessage
    ensures v.ErrorView? ==> v.message == s.error
    ensures v.TableView? ==> |v.rows| == |s.users|
    ensures v.TableView? ==> forall k :: 0 <= k < |v.rows| ==> v.rows[k] == RowOf(s.users[k])
  {
    if s.loading then LoadingView(LoadingMessage)
    else if s.error != [] then ErrorView(s.error)
    else TableView(Rows(s.users))
  }

  // ---------------------------------------------------------------- load then render

  /** While a load is in flight the page shows the loading message, whatever it showed before. */
  lemma RenderWhileLoading(s: PageState)
    ensures Render(LoadStarted(s)) == LoadingView(LoadingMessage)
  {
  }

  /** After a successful load the page is the table of exactly the fetched users. */
  lemma RenderAfterSuccess(s: PageState, data: seq<User>)
    ensures Render(LoadSettled(LoadStarted(s), Fetched(data))) == TableView(Rows(data))
  {
  }

  /** After a failed load the page shows the fixed error message, never an empty table. */
  lemma RenderAfterFailure(s: PageState)
    ensures Render(LoadSettled(LoadStarted(s), FetchFailed)) == ErrorView(LoadErrorMessage)
  {
  }

  // ---------------------------------------------------------------- skills round trip

  /** Joining skills as the table does and parsing the text as the form does
      gives the same skills back. */
  lemma {:induction false} SkillsRoundTrip(xs: seq<string>)
    requires forall k :: 0 <= k < |xs| ==> IsSkill(xs[k])
    ensures ParseSkills(SkillsLabel(xs)) == xs
    decreases |xs|
  {
    if |xs| == 0 {
      assert Trim([]) == [] by { TrimCharacterized([], 0, 0); }
      ParseSkillsLastPiece([]);
    } else if |xs| == 1 {
      ParseSkillsSingle(xs[0]);
    } else {
      SkillsRoundTrip(xs[1..]);
      SkillsRoundTripStep(xs);
    }
  }

  /** The inductive step: a skill in front of a list that survives the round trip. */
  lemma SkillsRoundTripStep(xs: seq<string>)
    requires |xs| >= 2 && IsSkill(xs[0])
    requires ParseSkills(SkillsLabel(xs[1..])) == xs[1..]
    ensures ParseSkills(SkillsLabel(xs)) == xs
  {
    ParseSkillsConsBlank(xs[0], SkillsLabel(xs[1..]));
    assert xs == [xs[0]] + xs[1..];
  }

  /** The round trip holds for exactly those lists whose every entry is a skill. */
  lemma SkillsRoundTripExactly(xs: seq<string>)
    ensures ParseSkills(SkillsLabel(xs)) == xs <==> forall k :: 0 <= k < |xs| ==> IsSkill(xs[k])
  {
    if forall k :: 0 <= k < |xs| ==> IsSkill(xs[k]) {
      SkillsRoundTrip(xs);
    }
  }

  /** So a list the form produced survives a trip through the table's text unchanged. */
  lemma SubmittedSkillsRoundTrip(raw: string)
    ensures ParseSkills(SkillsLabel(ParseSkills(raw))) == ParseSkills(raw)
  {
    SkillsRoundTrip(ParseSkills(raw));
  }
}
