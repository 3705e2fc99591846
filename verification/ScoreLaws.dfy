/** What the score of one run in a history search is, on the text, the host and the age. */
module ScoreLaws {
  import opened Basics
  import opened Text
  import opened CommandHistory

  /** The searched text stands behind `before`, and nowhere earlier. */
  ghost predicate FirstAt(haystack: string, needle: string, before: string) {
    && (exists after :: haystack == before + needle + after)
    && forall b, a :: haystack == b + needle + a ==> |before| <= |b|
  }

  /** 300 points at the start of a command, 200 at the start of a word, 100 within one. */
  function PlacePoints(before: string): int {
    if before == [] then 300 else if IsSpace(before[|before| - 1]) then 200 else 100
  }

  /** 60 points for a run of now, two less for each day of age, rounded half up, down to none. */
  predicate AgePoints(age: int, points: int) {
    if age <= 0 then points == 60
    else if age >= 2592000000 then points == 0
    else points * 43200000 <= 2613600000 - age < (points + 1) * 43200000
  }

  lemma RecencyIsByAge(startedAt: int, now: int)
    ensures AgePoints(now - startedAt, Recency(startedAt, now))
  {
  }

  lemma OccursIsBetween(s: string, pattern: string, before: string, after: string)
    requires s == before + pattern + after
    ensures OccursAt(s, pattern, |before|)
  {
  }

  lemma FirstIsIndex(s: string, pattern: string, before: string)
    requires FirstAt(s, pattern, before)
    ensures IndexOf(s, pattern) == Some(|before|) && s[..|before|] == before
  {
    var after :| s == before + pattern + after;
    OccursIsBetween(s, pattern, before, after);
    var i := IndexOf(s, pattern).value;
    assert s == s[..i] + pattern + s[i + |pattern|..];
  }

  /** Where the text is found a run gets the points of the place, 80 more on the host that is asked for,
      and the points of its age. */
  lemma FoundRunScores(e: Entry, q: Query, before: string) returns (age: int)
    requires var needle := q.lower(Trim(q.text)); needle != "" && FirstAt(q.lower(e.command), needle, before)
    ensures AgePoints(q.now - e.startedAt, age)
    ensures Score(e, q) ==
            Some(PlacePoints(before) + (if q.hostId.Some? && q.hostId == e.hostId then 80 else 0) + age)
  {
    age := Recency(e.startedAt, q.now);
    RecencyIsByAge(e.startedAt, q.now);
    FirstIsIndex(q.lower(e.command), q.lower(Trim(q.text)), before);
  }

  /** An empty text finds every run; any other finds exactly those that contain it. */
  lemma FoundExactly(e: Entry, q: Query)
    ensures var needle := q.lower(Trim(q.text));
            Score(e, q).Some? <==> exists before, after :: q.lower(e.command) == before + needle + after
  {
    var needle, haystack := q.lower(Trim(q.text)), q.lower(e.command);
    if needle == "" {
      assert haystack == [] + needle + haystack;
    } else {
      if Score(e, q).Some? {
        var i := IndexOf(haystack, needle).value;
        assert haystack == haystack[..i] + needle + haystack[i + |needle|..];
      }
      if before, after :| haystack == before + needle + after {
        OccursIsBetween(haystack, needle, before, after);
      }
    }
  }

  lemma EmptyTextScores(e: Entry, q: Query) returns (age: int)
    requires q.lower(Trim(q.text)) == ""
    ensures AgePoints(q.now - e.startedAt, age)
    ensures Score(e, q) == Some((if q.hostId.Some? && q.hostId == e.hostId then 80 else 0) + age)
  {
    age := Recency(e.startedAt, q.now);
    RecencyIsByAge(e.startedAt, q.now);
  }
}
