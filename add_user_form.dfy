/** The modal add-user form: its draft record, the field-change handler,
    the skills normalisation done at submit time, and submit / cancel. */
module AddUserForm {
  import opened JsString

  // ---------------------------------------------------------------- draft

  /** The `formData` draft. `skills` is still the raw comma-separated text. */
  datatype Draft = Draft(
    firstName: string,
    lastName: string,
    email: string,
    status: bool,
    birthday: string,
    skills: string)

  /** `new Date().toISOString().split('T')[0]`: the date part of an ISO clock reading. */
  function DatePart(clock: string): (r: string)
    ensures r <= clock && 'T' !in r
    ensures |r| < |clock| ==> clock[|r|] == 'T'
  {
    FirstPiece(clock, 'T')
  }

  /** The draft a fresh or just-reset form holds, given the clock at that moment. */
  function InitialDraft(clock: string): (d: Draft)
    ensures d.firstName == [] && d.lastName == [] && d.email == [] && d.skills == []
    ensures d.status
    ensures d.birthday == DatePart(clock)
  {
    Draft([], [], [], true, DatePart(clock), [])
  }

  // ---------------------------------------------------------------- change events

  /** The `name` attributes of the form's inputs. No input edits the birthday. */
  datatype InputName = FirstName | LastName | Email | Skills | Status

  /** The `type` attribute each of those inputs carries. */
  function InputType(n: InputName): (t: string)
    ensures t == "checkbox" <==> n == Status
    ensures t == "email" <==> n == Email
  {
    match n
    case Email => "email"
    case Status => "checkbox"
    case _ => "text"
  }

  /** What `handleChange` reads off `e.target`. */
  datatype ChangeEvent = ChangeEvent(name: InputName, value: string, checked: bool)

  /** A draft property as JavaScript sees it: text or a boolean. */
  datatype FieldValue = Text(text: string) | Flag(flag: bool)

  /** `formData[name]`. */
  function Field(d: Draft, n: InputName): (v: FieldValue)
    ensures v.Flag? <==> InputType(n) == "checkbox"
    ensures v.Flag? ==> v.flag == d.status
  {
    match n
    case FirstName => Text(d.firstName)
    case LastName => Text(d.lastName)
    case Email => Text(d.email)
    case Skills => Text(d.skills)
    case Status => Flag(d.status)
  }

  /** `{ ...prev, [name]: type === 'checkbox' ? checked : value }`. */
  function Changed(d: Draft, e: ChangeEvent): (r: Draft)
    ensures Field(r, e.name) ==
              (if InputType(e.name) == "checkbox" then Flag(e.checked) else Text(e.value))
    ensures forall n :: n != e.name ==> Field(r, n) == Field(d, n)
    ensures r.birthday == d.birthday
  {
    match e.name
    case FirstName => d.(firstName := e.value)
    case LastName => d.(lastName := e.value)
    case Email => d.(email := e.value)
    case Skills => d.(skills := e.value)
    case Status => d.(status := e.checked)
  }

  /** Two drafts that agree on every input and on the birthday are the same draft. */
  lemma DraftExtensionality(a: Draft, b: Draft)
    requires forall n :: Field(a, n) == Field(b, n)
    requires a.birthday == b.birthday
    ensures a == b
  {
    assert Field(a, FirstName) == Field(b, FirstName);
    assert Field(a, LastName) == Field(b, LastName);
    assert Field(a, Email) == Field(b, Email);
    assert Field(a, Skills) == Field(b, Skills);
    assert Field(a, Status) == Field(b, Status);
  }

  /** Changes to different inputs commute. */
  lemma ChangesCommute(d: Draft, e1: ChangeEvent, e2: ChangeEvent)
    requires e1.name != e2.name
    ensures Changed(Changed(d, e1), e2) == Changed(Changed(d, e2), e1)
  {
    var a, b := Changed(Changed(d, e1), e2), Changed(Changed(d, e2), e1);
    forall n ensures Field(a, n) == Field(b, n) {
    }
    DraftExtensionality(a, b);
  }

  /** The last change to an input wins. */
  lemma LastChangeWins(d: Draft, e1: ChangeEvent, e2: ChangeEvent)
    requires e1.name == e2.name
    ensures Changed(Changed(d, e1), e2) == Changed(d, e2)
  {
    var a, b := Changed(Changed(d, e1), e2), Changed(d, e2);
    forall n ensures Field(a, n) == Field(b, n) {
    }
    DraftExtensionality(a, b);
  }

  // ---------------------------------------------------------------- skills

  /** What a stored skill looks like: non-empty, trimmed, comma-free. */
  predicate IsSkill(x: string)
  {
    x != [] && IsTrimmed(x) && ',' !in x
  }

  /** `.map(skill => skill.trim())`. */
  function TrimAll(ps: seq<string>): (r: seq<string>)
    ensures |r| == |ps|
    ensures forall k :: 0 <= k < |r| ==> r[k] == Trim(ps[k])
  {
    seq(|ps|, k requires 0 <= k < |ps| => Trim(ps[k]))
  }

  /** `.filter(skill => skill !== '')`. */
  function DropEmpty(ps: seq<string>): (r: seq<string>)
    ensures |r| <= |ps|
    ensures forall k :: 0 <= k < |r| ==> r[k] != []
    ensures forall x :: x in r <==> x in ps && x != []
  {
    if ps == [] then []
    else if ps[0] == [] then DropEmpty(ps[1..])
    else [ps[0]] + DropEmpty(ps[1..])
  }

  /** `formData.skills.split(',').map(trim).filter(non-empty)`. */
  function ParseSkills(raw: string): (r: seq<string>)
    ensures forall k :: 0 <= k < |r| ==> IsSkill(r[k])
  {
    var pieces := Split(raw, ',');
    var trimmed := TrimAll(pieces);
    forall x | x in trimmed ensures IsTrimmed(x) && ',' !in x {
      var j :| 0 <= j < |trimmed| && trimmed[j] == x;
      TrimKeepsOut(pieces[j], ',');
    }
    DropEmpty(trimmed)
  }

  lemma TrimAllConcat(a: seq<string>, b: seq<string>)
    ensures TrimAll(a + b) == TrimAll(a) + TrimAll(b)
  {
    var l, r := TrimAll(a + b), TrimAll(a) + TrimAll(b);
    forall k | 0 <= k < |l| ensures l[k] == r[k] {
      if k < |a| { assert (a + b)[k] == a[k]; } else { assert (a + b)[k] == b[k - |a|]; }
    }
  }

  lemma {:induction false} DropEmptyConcat(a: seq<string>, b: seq<string>)
    ensures DropEmpty(a + b) == DropEmpty(a) + DropEmpty(b)
    decreases |a|
  {
    if a != [] {
      assert (a + b)[1..] == a[1..] + b;
      DropEmptyConcat(a[1..], b);
    } else {
      assert a + b == b;
    }
  }

  /** Blanks in front of the raw text never change the parsed skills. */
  lemma ParseSkillsAfterBlank(c: char, raw: string)
    requires IsWhitespace(c)
    ensures ParseSkills([c] + raw) == ParseSkills(raw)
  {
    var ps := Split(raw, ',');
    SplitAfterPlainPrefix([c], raw, ',');
    var qs := Split([c] + raw, ',');
    assert qs == [[c] + ps[0]] + ps[1..];
    TrimAllConcat([[c] + ps[0]], ps[1..]);
    TrimAfterBlank(c, ps[0]);
    assert ps == [ps[0]] + ps[1..];
    TrimAllConcat([ps[0]], ps[1..]);
  }

  /** What one comma-free piece contributes to the parsed skills. */
  function PieceSkills(x: string): seq<string>
  {
    if Trim(x) == [] then [] else [Trim(x)]
  }

  /** A comma-free piece followed by `,` contributes its own trim, if non-empty. */
  lemma {:induction false} ParseSkillsPiece(x: string, rest: string)
    requires ',' !in x
    ensures ParseSkills(x + "," + rest) == PieceSkills(x) + ParseSkills(rest)
  {
    var ps := Split(rest, ',');
    SplitAfterPlainPrefix(x, [','] + rest, ',');
    assert ([','] + rest)[1..] == rest;
    assert x + "," + rest == x + ([','] + rest);
    var qs := Split([','] + rest, ',');
    assert qs == [[]] + ps;
    assert qs[0] == [] && qs[1..] == ps;
    assert x + [] == x;
    assert Split(x + "," + rest, ',') == [x] + ps;
    TrimAllConcat([x], ps);
    DropEmptyConcat([Trim(x)], TrimAll(ps));
  }

  /** The last comma-free piece contributes its own trim, if non-empty. */
  lemma {:induction false} ParseSkillsLastPiece(x: string)
    requires ',' !in x
    ensures ParseSkills(x) == PieceSkills(x)
  {
    SplitAfterPlainPrefix(x, [], ',');
    assert x + [] == x;
    assert Split([], ',') == [[]];
  }

  /** A skill followed by `,` contributes exactly itself. */
  lemma ParseSkillsCons(x: string, rest: string)
    requires IsSkill(x)
    ensures ParseSkills(x + "," + rest) == [x] + ParseSkills(rest)
  {
    ParseSkillsPiece(x, rest);
    TrimTrimmed(x);
  }

  /** A skill followed by `", "` is kept unchanged in front of the skills parsed from the rest. */
  lemma ParseSkillsConsBlank(x: string, rest: string)
    requires IsSkill(x)
    ensures ParseSkills(x + ", " + rest) == [x] + ParseSkills(rest)
  {
    assert x + ", " + rest == x + "," + ([' '] + rest);
    ParseSkillsCons(x, [' '] + rest);
    ParseSkillsAfterBlank(' ', rest);
  }

  /** A lone skill parses to itself. */
  lemma ParseSkillsSingle(x: string)
    requires IsSkill(x)
    ensures ParseSkills(x) == [x]
  {
    ParseSkillsLastPiece(x);
    TrimTrimmed(x);
  }

  /** A blank piece between two skills is dropped. */
  lemma ParseSkillsBlankBetween(x: string, y: string)
    requires IsSkill(x) && IsSkill(y)
    ensures ParseSkills(x + ", , " + y) == [x, y]
  {
    var r2 := [' '] + y;
    var r1 := "," + r2;
    assert ParseSkills(r2) == [y] by {
      ParseSkillsAfterBlank(' ', y);
      ParseSkillsSingle(y);
    }
    assert ParseSkills(r1) == [y] by {
      assert Trim([]) == [] by { TrimCharacterized([], 0, 0); }
      ParseSkillsPiece([], r2);
      assert [] + "," + r2 == r1;
    }
    ParseSkillsConsBlank(x, r1);
    assert x + ", , " + y == x + ", " + r1;
  }

  lemma ParseExampleMixed()
    ensures ParseSkills("react, , typescript") == ["react", "typescript"]
  {
    ParseSkillsBlankBetween("react", "typescript");
    assert "react" + ", , " + "typescript" == "react, , typescript";
  }

  /** Empty text gives no skills. */
  lemma ParseExampleEmpty()
    ensures ParseSkills("") == []
  {
    assert Trim("") == [] by { TrimCharacterized("", 0, 0); }
    ParseSkillsLastPiece("");
  }

  /** Only blanks and commas gives no skills. */
  lemma ParseExampleBlanks()
    ensures ParseSkills(" , ,") == []
  {
    assert Trim(" ") == [] by { TrimCharacterized(" ", 1, 1); }
    assert Trim("") == [] by { TrimCharacterized("", 0, 0); }
    assert " , ," == " " + "," + (" " + "," + "");
    ParseSkillsPiece(" ", " " + "," + "");
    ParseSkillsPiece(" ", "");
    ParseSkillsLastPiece("");
  }

  // ---------------------------------------------------------------- submit

  /** `Omit<User, 'id' | 'avatar'>`: what `onAddUser` receives. */
  datatype NewUser = NewUser(
    firstName: string,
    lastName: string,
    email: string,
    status: bool,
    birthday: string,
    skills: seq<string>)

  /** The record `handleSubmit` builds from the draft, `now` being the clock reading. */
  function Submitted(d: Draft, now: string): (u: NewUser)
    ensures u.firstName == d.firstName && u.lastName == d.lastName
    ensures u.email == d.email && u.status == d.status
    ensures u.birthday == now
    ensures u.skills == ParseSkills(d.skills)
    ensures forall k :: 0 <= k < |u.skills| ==> IsSkill(u.skills[k])
  {
    NewUser(d.firstName, d.lastName, d.email, d.status, now, ParseSkills(d.skills))
  }

  /** The draft's birthday is never looked at by submit. */
  lemma SubmittedIgnoresBirthday(d: Draft, b: string, now: string)
    ensures Submitted(d.(birthday := b), now) == Submitted(d, now)
  {
  }

  /** A call the form makes to one of its parent's callbacks. */
  datatype Callback = OnAddUser(user: NewUser) | OnClose

  /** The mounted form: its draft and the callback calls it has made, oldest first. */
  class Form {
    var formData: Draft
    var calls: seq<Callback>

    constructor (clock: string)
      ensures formData == InitialDraft(clock)
      ensures calls == []
    {
      formData := InitialDraft(clock);
      calls := [];
    }

    /** `handleChange`. */
    method HandleChange(e: ChangeEvent)
      modifies this`formData
      ensures formData == Changed(old(formData), e)
    {
      formData := Changed(formData, e);
    }

    /** `handleSubmit`: `now` is read for the record, `resetClock` for the fresh draft. */
    method HandleSubmit(now: string, resetClock: string)
      modifies this
      ensures calls == old(calls) + [OnAddUser(Submitted(old(formData), now)), OnClose]
      ensures formData == InitialDraft(resetClock)
    {
      var newUser := Submitted(formData, now);
      calls := calls + [OnAddUser(newUser)];
      formData := InitialDraft(resetClock);
      calls := calls + [OnClose];
    }

    /** The close button and "Cancelar" both call `onClose` and nothing else. */
    method Cancel()
      modifies this`calls
      ensures calls == old(calls) + [OnClose]
      ensures formData == old(formData)
    {
      calls := calls + [OnClose];
    }
  }
}
