/**
 * The stored dream entries and the three routes that change them:
 * `new_dream` and `edit_dream` store a posted form only when its error list
 * is empty, and `delete_dream` removes an entry.
 */
module Store {
  import opened Wrappers
  import opened Text
  import opened Items
  import opened Sleep
  import opened Images
  import opened Validation

  /** One row of the `dreams` table. */
  datatype Dream = Dream(
    date: string, title: string,
    location: string, people: string, thing: string,
    sound: Option<int>, color: string, smell: string, body: string,
    mood: Option<int>, vividness: Option<int>, fatigue: Option<int>,
    sleepStart: Option<string>, sleepEnd: Option<string>, sleepMinutes: Option<int>,
    imagePath: Option<string>, createdAt: string, updatedAt: string)

  predicate IsHexDigit(c: char) {
    '0' <= c <= '9' || 'a' <= c <= 'f'
  }

  /** `uuid.uuid4().hex`: 32 lower-case hexadecimal digits. */
  predicate IsHexToken(token: string) {
    |token| == 32 && forall i :: 0 <= i < |token| ==> IsHexDigit(token[i])
  }

  /**
   * `save_image(file)`: nothing for no upload or a refused name; otherwise the
   * path "uploads/<token>.<extension>" of the saved file, the extension in
   * lower case. The token stands for the random `uuid4` name, which
   * `secure_filename` leaves as it is.
   */
  function SaveImage(image: Option<string>, token: string): (path: Option<string>)
    requires IsHexToken(token)
    ensures path.Some? <==> image.Some? && image.value != "" && AllowedFile(image.value)
    ensures path.Some? ==> AllowedFile(path.value) && Extension(path.value) == Extension(image.value)
  {
    if image.None? || image.value == "" then None
    else if !AllowedFile(image.value) then None
    else
      var ext := Extension(image.value);
      SavedNameAllowed("uploads/" + token, image.value);
      Some("uploads/" + token + "." + ext)
  }

  /** The saved name keeps the upload's extension, so it is accepted too. */
  lemma SavedNameAllowed(stem: string, filename: string)
    requires AllowedFile(filename)
    ensures var path := stem + "." + Extension(filename);
            '.' in path && Extension(path) == Extension(filename) && AllowedFile(path)
  {
    var ext := Extension(filename);
    assert ext in AllowedExtensions by {
      assert IsLastDot(filename, LastDot(filename));
    }
    assert '.' !in ext by {
      assert ext == "png" || ext == "jpg" || ext == "jpeg" || ext == "gif";
    }
    ExtensionAfterDot(stem, ext);
    LowerIdempotent(filename[LastDot(filename) + 1..]);
    var path := stem + "." + ext;
    assert IsLastDot(path, |stem|);
    assert Lower(path[|stem| + 1..]) in AllowedExtensions;
  }

  /** Whatever comes before it, the text after the last dot is an extension without dots. */
  lemma ExtensionAfterDot(stem: string, ext: string)
    requires '.' !in ext
    ensures var path := stem + "." + ext;
            '.' in path && LastDot(path) == |stem| && path[|stem| + 1..] == ext
  {
    var path := stem + "." + ext;
    assert path[|stem|] == '.';
    assert path[|stem| + 1..] == ext;
    assert IsLastDot(path, |stem|) by {
      forall j | |stem| < j < |path| ensures path[j] != '.' {
        assert path[j] == ext[j - |stem| - 1];
      }
    }
    LastDotUnique(path, |stem|);
  }

  /** `value or None`. */
  function OrNone(value: string): Option<string> {
    if value == "" then None else Some(value)
  }

  /** The row the routes write for a submission. */
  function Record(s: Submission, imagePath: Option<string>, createdAt: string, updatedAt: string): Dream {
    Dream(s.date, s.title, s.location, s.people, s.thing, s.sound, s.color, s.smell, s.body,
          s.mood, s.vividness, s.fatigue, OrNone(s.sleepStartText), OrNone(s.sleepEndText),
          s.sleepMinutes, imagePath, createdAt, updatedAt)
  }

  predicate InRange(score: Option<int>, lo: int, hi: int) {
    score.None? || lo <= score.value <= hi
  }

  /** A title and a body are given, without surrounding space, and a date. */
  predicate TextsGiven(d: Dream) {
    d.title != "" && IsStripped(d.title) && d.body != "" && IsStripped(d.body) && d.date != ""
  }

  /** Every score is absent or within its scale. */
  predicate ScoresInRange(d: Dream) {
    InRange(d.sound, 0, 5) && InRange(d.mood, -2, 2) && InRange(d.vividness, 1, 5) && InRange(d.fatigue, 0, 5)
  }

  /** Both sleep times or neither; given times parse and the minutes are the ones between them. */
  predicate SleepConsistent(d: Dream) {
    && (d.sleepStart.Some? <==> d.sleepEnd.Some?)
    && (d.sleepStart.Some? ==>
          && ParseTime(d.sleepStart.value).Some?
          && ParseTime(d.sleepEnd.value).Some?
          && d.sleepMinutes == ComputeSleepMinutes(ParseTime(d.sleepStart.value), ParseTime(d.sleepEnd.value)))
    && (d.sleepStart.None? ==> d.sleepMinutes.None?)
  }

  /** The five lists are as `normalize_items` leaves them. */
  predicate ListsNormal(d: Dream) {
    && NormalForm(Some(d.location)) == d.location
    && NormalForm(Some(d.people)) == d.people
    && NormalForm(Some(d.thing)) == d.thing
    && NormalForm(Some(d.color)) == d.color
    && NormalForm(Some(d.smell)) == d.smell
  }

  /** What the checks guarantee about every stored row. */
  predicate WellFormed(d: Dream) {
    && TextsGiven(d)
    && ScoresInRange(d)
    && SleepConsistent(d)
    && ListsNormal(d)
    && (d.imagePath.Some? ==> AllowedFile(d.imagePath.value))
  }

  /**
   * A submission read from a form on which no check fires gives a
   * well-formed row, whatever image path (one that passes `allowed_file`, or
   * none) is stored with it.
   */
  lemma AcceptedWellFormed(form: Form, image: Option<string>, s: Submission,
                           imagePath: Option<string>, createdAt: string, updatedAt: string)
    requires ReadFrom(s, form) && Shaped(s)
    requires forall p :: !Fires(p, form, image, s)
    requires imagePath.Some? ==> AllowedFile(imagePath.value)
    ensures WellFormed(Record(s, imagePath, createdAt, updatedAt))
  {
    var d := Record(s, imagePath, createdAt, updatedAt);
    assert !Fires(MissingTitle, form, image, s) && !Fires(MissingBody, form, image, s);
    StrippedTexts(form, s);
    assert TextsGiven(d);
    ReadScoresInRange(form, s);
    assert ScoresInRange(d);
    assert !Fires(BadTimeFormat, form, image, s) && !Fires(UnpairedTimes, form, image, s);
    SleepPaired(form, image, s);
    AcceptedSleep(s, d);
    assert ListsNormal(d);
  }

  /** The title and body read from a form carry no surrounding space. */
  lemma StrippedTexts(form: Form, s: Submission)
    requires ReadFrom(s, form)
    ensures IsStripped(s.title) && IsStripped(s.body)
  {
  }

  /** The scores read from a form are absent or within their scales. */
  lemma ReadScoresInRange(form: Form, s: Submission)
    requires ReadFrom(s, form)
    ensures InRange(s.sound, 0, 5) && InRange(s.mood, -2, 2) && InRange(s.vividness, 1, 5) && InRange(s.fatigue, 0, 5)
  {
  }

  /** Paired, parsed times make the stored sleep columns consistent. */
  lemma AcceptedSleep(s: Submission, d: Dream)
    requires s.sleepStart == ParseTime(s.sleepStartText) && s.sleepEnd == ParseTime(s.sleepEndText)
    requires s.sleepMinutes == ComputeSleepMinutes(s.sleepStart, s.sleepEnd)
    requires (s.sleepStartText != "") == (s.sleepEndText != "")
    requires s.sleepStartText != "" ==> s.sleepStart.Some? && s.sleepEnd.Some?
    requires d.sleepStart == OrNone(s.sleepStartText) && d.sleepEnd == OrNone(s.sleepEndText)
    requires d.sleepMinutes == s.sleepMinutes
    ensures SleepConsistent(d)
  {
    if s.sleepStartText == "" {
      assert ParseTime(s.sleepStartText).None?;
    }
  }

  /** Times that pass both time checks are both given, or both left empty. */
  lemma SleepPaired(form: Form, image: Option<string>, s: Submission)
    requires s.sleepStart == ParseTime(s.sleepStartText) && s.sleepEnd == ParseTime(s.sleepEndText)
    requires !Fires(BadTimeFormat, form, image, s) && !Fires(UnpairedTimes, form, image, s)
    ensures (s.sleepStartText != "") == (s.sleepEndText != "")
    ensures s.sleepStartText != "" ==> s.sleepStart.Some? && s.sleepEnd.Some?
  {
  }

  /** Every row of a table is well formed. */
  predicate AllWellFormed(rows: map<int, Dream>) {
    forall id :: id in rows ==> WellFormed(rows[id])
  }

  lemma StoreKeepsWellFormed(rows: map<int, Dream>, id: int, d: Dream)
    requires AllWellFormed(rows) && WellFormed(d)
    ensures AllWellFormed(rows[id := d])
  {
    var updated := rows[id := d];
    forall k | k in updated ensures WellFormed(updated[k]) {
      if k != id {
        assert updated[k] == rows[k];
      }
    }
  }

  /** What a posting route answers. */
  datatype Outcome = NotFound | Rejected(errors: seq<string>) | Saved(id: int)

  /** The `dreams` table. */
  class Journal {
    var dreams: map<int, Dream>
    /** The id the next insert receives. */
    var nextId: int

    /** Ids are positive and below `nextId`, and every row is well formed. */
    ghost predicate Valid()
      reads this
    {
      && 1 <= nextId
      && (forall id :: id in dreams ==> 1 <= id < nextId)
      && AllWellFormed(dreams)
    }

    constructor ()
      ensures Valid() && dreams == map[] && nextId == 1
    {
      dreams := map[];
      nextId := 1;
    }

    /** The `INSERT`: the row is stored under a fresh id (`cursor.lastrowid`). */
    method Insert(d: Dream) returns (id: int)
      requires Valid() && WellFormed(d)
      modifies this
      ensures Valid()
      ensures id == old(nextId) && id !in old(dreams)
      ensures dreams == old(dreams)[id := d] && nextId == old(nextId) + 1
    {
      id := nextId;
      StoreKeepsWellFormed(dreams, id, d);
      dreams := dreams[id := d];
      nextId := nextId + 1;
    }

    /** The `UPDATE ... WHERE dream_id = ?` of a stored row. */
    method Update(id: int, d: Dream)
      requires Valid() && WellFormed(d) && id in dreams
      modifies this
      ensures Valid()
      ensures dreams == old(dreams)[id := d] && nextId == old(nextId)
    {
      StoreKeepsWellFormed(dreams, id, d);
      dreams := dreams[id := d];
    }

    /**
     * `new_dream` on POST. `today` and `now` are the ISO texts of the current
     * date and time, `token` the random name for an uploaded image. With
     * errors nothing is stored; otherwise the row is inserted under a fresh id.
     */
    method NewDream(form: Form, image: Option<string>, today: string, now: string, token: string)
      returns (outcome: Outcome)
      requires Valid() && today != "" && IsHexToken(token)
      modifies this
      ensures Valid()
      ensures var errors := Messages(Fired(CheckOrder, form, image, ReadForm(form, today)));
              if errors != [] then
                outcome == Rejected(errors) && dreams == old(dreams) && nextId == old(nextId)
              else
                && outcome == Saved(old(nextId))
                && old(nextId) !in old(dreams)
                && dreams == old(dreams)[old(nextId) := Record(ReadForm(form, today), SaveImage(image, token), now, now)]
                && nextId == old(nextId) + 1
    {
      var s := ReadForm(form, today);
      var errors := CollectErrors(form, image, s);
      if errors != [] {
        return Rejected(errors);
      }
      var imagePath := SaveImage(image, token);
      ReadFormReads(form, today);
      NoErrors(form, image, s);
      AcceptedWellFormed(form, image, s, imagePath, now, now);
      var id := Insert(Record(s, imagePath, now, now));
      outcome := Saved(id);
    }

    /**
     * `edit_dream` on POST: not found for an unknown id; with errors nothing
     * changes; otherwise the row is rewritten, keeping its creation time and,
     * when no file is uploaded, its image.
     */
    method EditDream(id: int, form: Form, image: Option<string>, today: string, now: string, token: string)
      returns (outcome: Outcome)
      requires Valid() && today != "" && IsHexToken(token)
      modifies this
      ensures Valid()
      ensures nextId == old(nextId)
      ensures id !in old(dreams) ==> outcome == NotFound && dreams == old(dreams)
      ensures id in old(dreams) ==>
                var errors := Messages(Fired(CheckOrder, form, image, ReadForm(form, today)));
                var imagePath := if image.Some? && image.value != "" then SaveImage(image, token)
                                 else old(dreams)[id].imagePath;
                if errors != [] then
                  outcome == Rejected(errors) && dreams == old(dreams)
                else
                  && outcome == Saved(id)
                  && dreams == old(dreams)[id := Record(ReadForm(form, today), imagePath, old(dreams)[id].createdAt, now)]
    {
      if id !in dreams {
        return NotFound;
      }
      var dream := dreams[id];
      var s := ReadForm(form, today);
      var imagePath := dream.imagePath;
      var errors := CollectErrors(form, image, s);
      if errors != [] {
        return Rejected(errors);
      }
      if image.Some? && image.value != "" {
        imagePath := SaveImage(image, token);
      }
      ReadFormReads(form, today);
      NoErrors(form, image, s);
      AcceptedWellFormed(form, image, s, imagePath, dream.createdAt, now);
      Update(id, Record(s, imagePath, dream.createdAt, now));
      outcome := Saved(id);
    }

    /** `delete_dream`: the row goes, if it was there; an unknown id changes nothing. */
    method DeleteDream(id: int)
      requires Valid()
      modifies this
      ensures Valid()
      ensures dreams == old(dreams) - {id} && nextId == old(nextId)
    {
      dreams := dreams - {id};
    }
  }
}
