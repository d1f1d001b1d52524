/** The two pieces of logic inside the task form: the initial field values,
    taken from the task being edited or from defaults, and the conversion of
    the comma-separated tag text into a tag list on submit. */
module TaskFormLogic {
  import opened Wrappers
  import opened JsArray
  import opened JsString
  import opened Tasks

  /** The form's text fields and its priority choice. */
  datatype FormState = FormState(
    title: string,
    description: string,
    dueDate: string,
    priority: Priority,
    tags: string)

  /** The `useState` initialisers, with `toIsoString` for
      `Date.prototype.toISOString`. */
  function InitialFormState(initial: Option<Task>, toIsoString: Timestamp -> string): FormState {
    match initial
    case None => FormState("", "", "", Medium, "")
    case Some(t) => FormState(
      t.title,
      t.description,
      Split(toIsoString(t.dueDate), 'T')[0],
      t.priority,
      Join(t.tags, ", "))
  }

  /** `filter(Boolean)` on strings: the empty string is falsy. */
  function IsNonEmpty(s: string): bool {
    s != ""
  }

  /** The tag list `handleSubmit` builds: the text split at commas, each piece
      trimmed, and the empty pieces dropped. */
  function ParseTags(text: string): seq<string> {
    Filter(Map(Split(text, ','), Trim), IsNonEmpty)
  }

  /** `handleSubmit`: the properties handed to the caller, with `parseDate`
      for `new Date(dueDate)`. No id, status or timestamps are supplied. */
  function SubmittedProps(form: FormState, parseDate: string -> Timestamp): TaskProps {
    TaskProps(None, form.title, form.description, parseDate(form.dueDate), form.priority,
              None, Some(ParseTags(form.tags)), None, None)
  }

  /** A tag as it comes out of parsing: non-empty, trimmed, comma-free. */
  predicate IsCleanTag(tag: string) {
    tag != "" && IsTrimmed(tag) && ',' !in tag
  }

  /** Trimming keeps a slice of its input, so it adds no comma. */
  lemma TrimAddsNoComma(s: string)
    requires ',' !in s
    ensures ',' !in Trim(s)
  {
    var i, j := TrimKeepsMiddle(s);
    forall k | 0 <= k < |Trim(s)| ensures Trim(s)[k] != ',' {
      assert Trim(s)[k] == s[i + k];
    }
  }

  /** Every parsed tag is non-empty, trimmed and free of commas. */
  lemma ParsedTagsAreClean(text: string)
    ensures forall i | 0 <= i < |ParseTags(text)| :: IsCleanTag(ParseTags(text)[i])
  {
    var pieces := Split(text, ',');
    var trimmed := Map(pieces, Trim);
    FilterMembers(trimmed, IsNonEmpty);
    forall k | 0 <= k < |trimmed| ensures ',' !in trimmed[k] {
      TrimAddsNoComma(pieces[k]);
    }
  }

  /** Parsing keeps the comma-separated pieces in their left-to-right order:
      the tags of `a + "," + b` are the tags of `a` followed by those of `b`. */
  lemma ParseTagsAppend(a: string, b: string)
    ensures ParseTags(a + "," + b) == ParseTags(a) + ParseTags(b)
  {
    SplitAround(a, b, ',');
    var pa, pb := Split(a, ','), Split(b, ',');
    MapAppend(pa, pb, Trim);
    FilterAppend(Map(pa, Trim), Map(pb, Trim), IsNonEmpty);
  }

  /** A character other than the separator joins the first piece. */
  lemma SplitNonSeparator(c: char, s: string, sep: char)
    requires c != sep
    ensures Split([c] + s, sep) == [[c] + Split(s, sep)[0]] + Split(s, sep)[1..]
  {
    assert ([c] + s)[1..] == s;
  }

  /** The space that `join(', ')` puts after each comma is trimmed away. */
  lemma ParseTagsSkipsLeadingSpace(s: string)
    ensures ParseTags(" " + s) == ParseTags(s)
  {
    TrimmedPiecesSkipLeadingSpace(s);
  }

  /** A space in front of the first piece does not survive trimming. */
  lemma TrimmedPiecesSkipLeadingSpace(s: string)
    ensures Map(Split(" " + s, ','), Trim) == Map(Split(s, ','), Trim)
  {
    var rest := Split(s, ',');
    SplitNonSeparator(' ', s, ',');
    TrimLeadingSpace(rest[0]);
    MapHeadCongruent(" " + rest[0], rest[0], rest[1..], Trim);
    assert [rest[0]] + rest[1..] == rest;
  }

  /** A clean tag on its own parses to itself. */
  lemma ParseSingleTag(tag: string)
    requires IsCleanTag(tag)
    ensures ParseTags(tag) == [tag]
  {
    SplitWithoutSeparator(tag, ',');
    assert Map([tag], Trim) == [tag];
  }

  /** Round trip: clean tags joined with `", "` parse back to themselves. */
  lemma {:induction false} ParseTagsOfJoin(tags: seq<string>)
    requires forall i | 0 <= i < |tags| :: IsCleanTag(tags[i])
    ensures ParseTags(Join(tags, ", ")) == tags
    decreases |tags|
  {
    if tags == [] {
      assert Split("", ',') == [""];
      assert Map([""], Trim) == [""];
    } else if |tags| == 1 {
      ParseSingleTag(tags[0]);
    } else {
      var rest := Join(tags[1..], ", ");
      JoinStep(tags);
      ParseTagsAppend(tags[0], " " + rest);
      ParseTagsSkipsLeadingSpace(rest);
      ParseSingleTag(tags[0]);
      ParseTagsOfJoin(tags[1..]);
      assert tags == [tags[0]] + tags[1..];
    }
  }

  /** `join(', ')` puts a comma and then a space between two pieces. */
  lemma JoinStep(tags: seq<string>)
    requires |tags| >= 2
    ensures Join(tags, ", ") == tags[0] + "," + (" " + Join(tags[1..], ", "))
  {
    var rest := Join(tags[1..], ", ");
    assert Join(tags, ", ") == tags[0] + ", " + rest;
    assert ", " == "," + " ";
  }

  /** A new form starts with empty text fields and medium priority. */
  lemma NewFormDefaults(toIsoString: Timestamp -> string)
    ensures var f := InitialFormState(None, toIsoString);
      && f.title == "" && f.description == "" && f.dueDate == "" && f.tags == ""
      && f.priority == Medium
    ensures ParseTags(InitialFormState(None, toIsoString).tags) == []
  {
    assert Split("", ',') == [""];
    assert Map([""], Trim) == [""];
  }

  /** Submitting the form for a task unedited gives back its title,
      description, priority and (clean) tags. */
  lemma EditFormRoundTrip(t: Task, toIsoString: Timestamp -> string, parseDate: string -> Timestamp)
    requires forall i | 0 <= i < |t.tags| :: IsCleanTag(t.tags[i])
    ensures var p := SubmittedProps(InitialFormState(Some(t), toIsoString), parseDate);
      && p.title == t.title && p.description == t.description && p.priority == t.priority
      && p.tags == Some(t.tags)
  {
    ParseTagsOfJoin(t.tags);
  }
}
