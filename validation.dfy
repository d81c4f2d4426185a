/**
 * The form rules shared by `new_dream` and `edit_dream`: the values each
 * route derives from the posted form, and the list of error messages that
 * decides whether the entry is stored.
 */
module Validation {
  import opened Wrappers
  import opened Text
  import opened Numbers
  import opened Items
  import opened Sleep
  import opened Images

  /** The fields the entry form posts. */
  datatype Key =
    | Title | Body | Date | Location | People | Thing | Color | Smell
    | Sound | Mood | Vividness | Fatigue | SleepStart | SleepEnd

  /** The name under which each field is posted. */
  function KeyName(k: Key): string {
    match k
    case Title => "title"
    case Body => "body"
    case Date => "date"
    case Location => "location"
    case People => "people"
    case Thing => "thing"
    case Color => "color"
    case Smell => "smell"
    case Sound => "sound"
    case Mood => "mood"
    case Vividness => "vividness"
    case Fatigue => "fatigue"
    case SleepStart => "sleep_start"
    case SleepEnd => "sleep_end"
  }

  /** The posted form: the text sent for each field that was sent. */
  type Form = map<Key, string>

  /** `form.get(key)`. */
  function Get(form: Form, key: Key): Option<string> {
    if key in form then Some(form[key]) else None
  }

  /** `form.get(key, "")`. */
  function GetText(form: Form, key: Key): string {
    Get(form, key).GetOr("")
  }

  /** What both routes compute from the form before checking it. */
  datatype Submission = Submission(
    title: string, body: string, date: string,
    location: string, people: string, thing: string, color: string, smell: string,
    sound: Option<int>, mood: Option<int>, vividness: Option<int>, fatigue: Option<int>,
    sleepStartText: string, sleepEndText: string,
    sleepStart: Option<Time>, sleepEnd: Option<Time>, sleepMinutes: Option<int>)

  /**
   * Reading the form: title, body, date and times stripped, the date falling
   * back to `today` (the ISO text of the current date), the five lists
   * normalised, the four scores parsed within their ranges, the times parsed
   * and the sleep duration computed from them.
   */
  function ReadForm(form: Form, today: string): Submission
  {
    var date := Strip(GetText(form, Date));
    var startText := Strip(GetText(form, SleepStart));
    var endText := Strip(GetText(form, SleepEnd));
    var start := ParseTime(startText);
    var end := ParseTime(endText);
    Submission(
      title := Strip(GetText(form, Title)),
      body := Strip(GetText(form, Body)),
      date := if date != "" then date else today,
      location := NormalForm(Some(GetText(form, Location))),
      people := NormalForm(Some(GetText(form, People))),
      thing := NormalForm(Some(GetText(form, Thing))),
      color := NormalForm(Some(GetText(form, Color))),
      smell := NormalForm(Some(GetText(form, Smell))),
      sound := ParseInt(Get(form, Sound), Some(0), Some(5)),
      mood := ParseInt(Get(form, Mood), Some(-2), Some(2)),
      vividness := ParseInt(Get(form, Vividness), Some(1), Some(5)),
      fatigue := ParseInt(Get(form, Fatigue), Some(0), Some(5)),
      sleepStartText := startText,
      sleepEndText := endText,
      sleepStart := start,
      sleepEnd := end,
      sleepMinutes := ComputeSleepMinutes(start, end))
  }

  /** The nine checks, in the order the routes make them. */
  datatype Problem =
    | MissingTitle | MissingBody | BadSound | BadMood | BadVividness | BadFatigue
    | BadTimeFormat | UnpairedTimes | BadImageType

  const CheckOrder: seq<Problem> :=
    [MissingTitle, MissingBody, BadSound, BadMood, BadVividness, BadFatigue, BadTimeFormat, UnpairedTimes, BadImageType]

  /** Every check is made. */
  lemma EveryCheckMade()
    ensures forall p :: p in CheckOrder
  {
    forall p ensures p in CheckOrder {
      match p
      case MissingTitle => assert CheckOrder[0] == p;
      case MissingBody => assert CheckOrder[1] == p;
      case BadSound => assert CheckOrder[2] == p;
      case BadMood => assert CheckOrder[3] == p;
      case BadVividness => assert CheckOrder[4] == p;
      case BadFatigue => assert CheckOrder[5] == p;
      case BadTimeFormat => assert CheckOrder[6] == p;
      case UnpairedTimes => assert CheckOrder[7] == p;
      case BadImageType => assert CheckOrder[8] == p;
    }
  }

  /** The message flashed for each problem. */
  function Message(p: Problem): string {
    match p
    case MissingTitle => "タイトルは必須です。"
    case MissingBody => "本文は必須です。"
    case BadSound => "音は 0 から 5 の整数で入力してください。"
    case BadMood => "感情は -2 から 2 の整数で入力してください。"
    case BadVividness => "鮮明度は 1 から 5 の整数で入力してください。"
    case BadFatigue => "疲労度は 0 から 5 の整数で入力してください。"
    case BadTimeFormat => "寝た時間は HH:MM 形式で入力してください。"
    case UnpairedTimes => "寝た時間は開始と終了を両方入力してください。"
    case BadImageType => "画像は png/jpg/jpeg/gif のみ対応しています。"
  }

  /** `form.get(key)` is truthy: present and not empty. */
  predicate Given(form: Form, key: Key) {
    GetText(form, key) != ""
  }

  /**
   * When each check fires. `image` is the uploaded file's name, `None` when
   * no file part was sent; an empty name counts as no upload.
   */
  predicate Fires(p: Problem, form: Form, image: Option<string>, s: Submission) {
    match p
    case MissingTitle => s.title == ""
    case MissingBody => s.body == ""
    case BadSound => Given(form, Sound) && s.sound.None?
    case BadMood => Given(form, Mood) && s.mood.None?
    case BadVividness => Given(form, Vividness) && s.vividness.None?
    case BadFatigue => Given(form, Fatigue) && s.fatigue.None?
    case BadTimeFormat =>
      || (s.sleepStartText != "" && s.sleepStart.None?)
      || (s.sleepEndText != "" && s.sleepEnd.None?)
    case UnpairedTimes => s.sleepStart.Some? != s.sleepEnd.Some?
    case BadImageType => image.Some? && image.value != "" && !AllowedFile(image.value)
  }

  /** The problems among `ps` that fire, in their order. */
  function Fired(ps: seq<Problem>, form: Form, image: Option<string>, s: Submission): seq<Problem> {
    if ps == [] then []
    else
      var last := ps[|ps| - 1];
      Fired(ps[..|ps| - 1], form, image, s) + (if Fires(last, form, image, s) then [last] else [])
  }

  function Messages(ps: seq<Problem>): seq<string> {
    if ps == [] then [] else Messages(ps[..|ps| - 1]) + [Message(ps[|ps| - 1])]
  }

  /** The messages one check contributes: its own when it fires, none otherwise. */
  function Reported(p: Problem, form: Form, image: Option<string>, s: Submission): seq<string> {
    if Fires(p, form, image, s) then [Message(p)] else []
  }

  /** The messages of the checks that fire among `ps` and `p`. */
  lemma FiredSnoc(ps: seq<Problem>, p: Problem, form: Form, image: Option<string>, s: Submission)
    ensures Messages(Fired(ps + [p], form, image, s)) == Messages(Fired(ps, form, image, s)) + Reported(p, form, image, s)
  {
    var before := Fired(ps, form, image, s);
    assert (ps + [p])[..|ps|] == ps;
    assert Fired(ps + [p], form, image, s) == before + (if Fires(p, form, image, s) then [p] else []);
    if Fires(p, form, image, s) {
      assert (before + [p])[..|before|] == before;
      assert Messages(before + [p]) == Messages(before) + [Message(p)];
    } else {
      assert before + [] == before;
    }
  }

  /** Running the checks in order gives each one's messages in turn. */
  lemma FiredInOrder(form: Form, image: Option<string>, s: Submission)
    ensures Messages(Fired(CheckOrder, form, image, s)) == [] + Reported(MissingTitle, form, image, s) + Reported(MissingBody, form, image, s) + Reported(BadSound, form, image, s) + Reported(BadMood, form, image, s) + Reported(BadVividness, form, image, s) + Reported(BadFatigue, form, image, s) + Reported(BadTimeFormat, form, image, s) + Reported(UnpairedTimes, form, image, s) + Reported(BadImageType, form, image, s)
  {
    var done: seq<Problem> := [];
    FiredSnoc(done, MissingTitle, form, image, s);
    done := done + [MissingTitle];
    FiredSnoc(done, MissingBody, form, image, s);
    done := done + [MissingBody];
    FiredSnoc(done, BadSound, form, image, s);
    done := done + [BadSound];
    FiredSnoc(done, BadMood, form, image, s);
    done := done + [BadMood];
    FiredSnoc(done, BadVividness, form, image, s);
    done := done + [BadVividness];
    FiredSnoc(done, BadFatigue, form, image, s);
    done := done + [BadFatigue];
    FiredSnoc(done, BadTimeFormat, form, image, s);
    done := done + [BadTimeFormat];
    FiredSnoc(done, UnpairedTimes, form, image, s);
    done := done + [UnpairedTimes];
    FiredSnoc(done, BadImageType, form, image, s);
    done := done + [BadImageType];
    assert done == CheckOrder;
  }

  /** One `if <check>: errors.append(<message>)` of the routes. */
  method Report(errors0: seq<string>, p: Problem, form: Form, image: Option<string>, s: Submission)
    returns (errors: seq<string>)
    ensures errors == errors0 + Reported(p, form, image, s)
  {
    errors := errors0;
    if Fires(p, form, image, s) {
      errors := errors + [Message(p)];
    }
  }

  /**
   * The `errors` list: one message per check that fires, in check order.
   */
  method CollectErrors(form: Form, image: Option<string>, s: Submission) returns (errors: seq<string>)
    ensures errors == Messages(Fired(CheckOrder, form, image, s))
  {
    errors := [];
    errors := Report(errors, MissingTitle, form, image, s);
    errors := Report(errors, MissingBody, form, image, s);
    errors := Report(errors, BadSound, form, image, s);
    errors := Report(errors, BadMood, form, image, s);
    errors := Report(errors, BadVividness, form, image, s);
    errors := Report(errors, BadFatigue, form, image, s);
    errors := Report(errors, BadTimeFormat, form, image, s);
    errors := Report(errors, UnpairedTimes, form, image, s);
    errors := Report(errors, BadImageType, form, image, s);
    FiredInOrder(form, image, s);
  }

  /** The problems reported are exactly those of the list whose check fires. */
  lemma {:induction false} FiredMembers(ps: seq<Problem>, form: Form, image: Option<string>, s: Submission)
    ensures forall p :: p in Fired(ps, form, image, s) <==> p in ps && Fires(p, form, image, s)
  {
    if ps != [] {
      var init := ps[..|ps| - 1];
      FiredMembers(init, form, image, s);
      assert ps == init + [ps[|ps| - 1]];
    }
  }

  /** One message per reported problem, in the same order. */
  lemma {:induction false} MessagesPointwise(ps: seq<Problem>)
    ensures |Messages(ps)| == |ps|
    ensures forall i :: 0 <= i < |ps| ==> Messages(ps)[i] == Message(ps[i])
  {
    if ps != [] {
      MessagesPointwise(ps[..|ps| - 1]);
    }
  }

  /** `form.get(key)` is empty, or `int` reads it as a number within the bounds. */
  predicate ScoreAccepted(form: Form, key: Key, lo: int, hi: int) {
    Given(form, key) ==>
      ParseIntLiteral(form[key]).Some? && lo <= ParseIntLiteral(form[key]).value <= hi
  }

  /** A stripped time field is empty or an `HH:MM` time. */
  predicate TimeAccepted(form: Form, key: Key) {
    var t := Strip(GetText(form, key));
    t == "" || ParseTime(t).Some?
  }

  /**
   * The conditions under which a posted form is stored: title and body are
   * not blank, each score given is an integer in its range, each time given
   * is a time, both times or neither are given, and an uploaded file has an
   * accepted image name.
   */
  predicate Acceptable(form: Form, image: Option<string>) {
    && Strip(GetText(form, Title)) != ""
    && Strip(GetText(form, Body)) != ""
    && ScoreAccepted(form, Sound, 0, 5)
    && ScoreAccepted(form, Mood, -2, 2)
    && ScoreAccepted(form, Vividness, 1, 5)
    && ScoreAccepted(form, Fatigue, 0, 5)
    && TimeAccepted(form, SleepStart)
    && TimeAccepted(form, SleepEnd)
    && (Strip(GetText(form, SleepStart)) == "" <==> Strip(GetText(form, SleepEnd)) == "")
    && (image.None? || image.value == "" || AllowedFile(image.value))
  }

  /** A score check fires exactly when the score is not accepted. */
  lemma ScoreCheck(form: Form, key: Key, lo: int, hi: int)
    ensures (Given(form, key) && ParseInt(Get(form, key), Some(lo), Some(hi)).None?) <==> !ScoreAccepted(form, key, lo, hi)
  {
  }

  /** The fields of `s` that the checks look at are those read from `form`. */
  ghost predicate ReadFrom(s: Submission, form: Form) {
    && s.title == Strip(GetText(form, Title))
    && s.body == Strip(GetText(form, Body))
    && s.sound == ParseInt(Get(form, Sound), Some(0), Some(5))
    && s.mood == ParseInt(Get(form, Mood), Some(-2), Some(2))
    && s.vividness == ParseInt(Get(form, Vividness), Some(1), Some(5))
    && s.fatigue == ParseInt(Get(form, Fatigue), Some(0), Some(5))
    && s.sleepStartText == Strip(GetText(form, SleepStart))
    && s.sleepEndText == Strip(GetText(form, SleepEnd))
    && s.sleepStart == ParseTime(s.sleepStartText)
    && s.sleepEnd == ParseTime(s.sleepEndText)
  }

  /**
   * The fields of a submission the checks do not look at: a date, the five
   * lists as `normalize_items` leaves them, and the minutes between the times.
   */
  predicate Shaped(s: Submission) {
    && s.date != ""
    && NormalForm(Some(s.location)) == s.location
    && NormalForm(Some(s.people)) == s.people
    && NormalForm(Some(s.thing)) == s.thing
    && NormalForm(Some(s.color)) == s.color
    && NormalForm(Some(s.smell)) == s.smell
    && s.sleepMinutes == ComputeSleepMinutes(s.sleepStart, s.sleepEnd)
  }

  /**
   * What reading a form produces: the form's date when one is given and
   * `today` otherwise; each list the normal form of its field, whose items
   * are the field's items without repeats, in first-seen order.
   */
  lemma ReadFormReads(form: Form, today: string)
    requires today != ""
    ensures ReadFrom(ReadForm(form, today), form) && Shaped(ReadForm(form, today))
    ensures var d := Strip(GetText(form, Date));
            ReadForm(form, today).date == (if d != "" then d else today)
    ensures var s := ReadForm(form, today);
            && s.location == NormalForm(Some(GetText(form, Location)))
            && s.people == NormalForm(Some(GetText(form, People)))
            && s.thing == NormalForm(Some(GetText(form, Thing)))
            && s.color == NormalForm(Some(GetText(form, Color)))
            && s.smell == NormalForm(Some(GetText(form, Smell)))
    ensures var s := ReadForm(form, today);
            && SplitItems(Some(s.location)) == Dedup(SplitItems(Some(GetText(form, Location))))
            && SplitItems(Some(s.people)) == Dedup(SplitItems(Some(GetText(form, People))))
            && SplitItems(Some(s.thing)) == Dedup(SplitItems(Some(GetText(form, Thing))))
            && SplitItems(Some(s.color)) == Dedup(SplitItems(Some(GetText(form, Color))))
            && SplitItems(Some(s.smell)) == Dedup(SplitItems(Some(GetText(form, Smell))))
  {
    NormalFormIdempotent(Some(GetText(form, Location)));
    NormalFormIdempotent(Some(GetText(form, People)));
    NormalFormIdempotent(Some(GetText(form, Thing)));
    NormalFormIdempotent(Some(GetText(form, Color)));
    NormalFormIdempotent(Some(GetText(form, Smell)));
    NormalFormItems(Some(GetText(form, Location)));
    NormalFormItems(Some(GetText(form, People)));
    NormalFormItems(Some(GetText(form, Thing)));
    NormalFormItems(Some(GetText(form, Color)));
    NormalFormItems(Some(GetText(form, Smell)));
  }

  /** The score checks fire exactly when a score is not accepted. */
  lemma ScoreChecks(form: Form, image: Option<string>, s: Submission)
    requires ReadFrom(s, form)
    ensures Fires(BadSound, form, image, s) <==> !ScoreAccepted(form, Sound, 0, 5)
    ensures Fires(BadMood, form, image, s) <==> !ScoreAccepted(form, Mood, -2, 2)
    ensures Fires(BadVividness, form, image, s) <==> !ScoreAccepted(form, Vividness, 1, 5)
    ensures Fires(BadFatigue, form, image, s) <==> !ScoreAccepted(form, Fatigue, 0, 5)
  {
    ScoreCheck(form, Sound, 0, 5);
    ScoreCheck(form, Mood, -2, 2);
    ScoreCheck(form, Vividness, 1, 5);
    ScoreCheck(form, Fatigue, 0, 5);
  }

  /** The two time checks pass exactly when each time given parses and both or neither are given. */
  lemma TimeChecks(form: Form, image: Option<string>, s: Submission)
    requires ReadFrom(s, form)
    ensures (!Fires(BadTimeFormat, form, image, s) && !Fires(UnpairedTimes, form, image, s)) <==>
              && TimeAccepted(form, SleepStart)
              && TimeAccepted(form, SleepEnd)
              && (Strip(GetText(form, SleepStart)) == "" <==> Strip(GetText(form, SleepEnd)) == "")
  {
  }

  /** No check fires exactly when the form is acceptable. */
  lemma NothingFires(form: Form, image: Option<string>, s: Submission)
    requires ReadFrom(s, form)
    ensures (forall p :: !Fires(p, form, image, s)) <==> Acceptable(form, image)
  {
    ScoreChecks(form, image, s);
    TimeChecks(form, image, s);
    if Acceptable(form, image) {
      forall p ensures !Fires(p, form, image, s) {
        match p
        case MissingTitle =>
        case MissingBody =>
        case BadSound =>
        case BadMood =>
        case BadVividness =>
        case BadFatigue =>
        case BadTimeFormat =>
        case UnpairedTimes =>
        case BadImageType =>
      }
    }
    if forall p :: !Fires(p, form, image, s) {
      assert !Fires(MissingTitle, form, image, s) && !Fires(MissingBody, form, image, s);
      assert !Fires(BadSound, form, image, s) && !Fires(BadMood, form, image, s);
      assert !Fires(BadVividness, form, image, s) && !Fires(BadFatigue, form, image, s);
      assert !Fires(BadTimeFormat, form, image, s) && !Fires(UnpairedTimes, form, image, s);
      assert !Fires(BadImageType, form, image, s);
    }
  }

  /**
   * The error list of the two routes is empty exactly when the form is
   * acceptable; the routes store the entry only in that case.
   */
  lemma ErrorsEmptyExactly(form: Form, image: Option<string>, today: string)
    requires today != ""
    ensures Messages(Fired(CheckOrder, form, image, ReadForm(form, today))) == [] <==> Acceptable(form, image)
  {
    ReadFormReads(form, today);
    ErrorsEmptyFor(form, image, ReadForm(form, today));
  }

  lemma ErrorsEmptyFor(form: Form, image: Option<string>, s: Submission)
    requires ReadFrom(s, form)
    ensures Messages(Fired(CheckOrder, form, image, s)) == [] <==> Acceptable(form, image)
  {
    NoErrors(form, image, s);
    NothingFires(form, image, s);
  }

  /** The error list is empty exactly when no check fires. */
  lemma NoErrors(form: Form, image: Option<string>, s: Submission)
    ensures Messages(Fired(CheckOrder, form, image, s)) == [] <==> forall p :: !Fires(p, form, image, s)
  {
    var fired := Fired(CheckOrder, form, image, s);
    MessagesPointwise(fired);
    FiredMembers(CheckOrder, form, image, s);
    EveryCheckMade();
    assert fired != [] ==> Fires(fired[0], form, image, s);
    assert (exists p :: Fires(p, form, image, s)) ==> fired != [];
  }
}
