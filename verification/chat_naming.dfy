/** `generate_chat_name` (planetterp_core.py): the title a conversation gets
    from a user query. */
module ChatNaming {
  import opened Text
  import CourseIds

  /** `generate_chat_name(query)`. */
  function ChatName(query: string): string {
    var ids := CourseIds.ExtractCourseIds(query);
    if |ids| > 0 then Join(ids, ", ") + " Question"
    else
      var words := Split(query);
      if |words| <= 4 then query else Join(words[..4], " ") + "..."
  }

  /** The words `', '.join(ids)` reads as: every id but the last carries a comma. */
  function Commaed(ids: seq<string>): (r: seq<string>)
    ensures |r| == |ids|
  {
    if |ids| <= 1 then ids else [ids[0] + ","] + Commaed(ids[1..])
  }

  lemma {:induction false} JoinCommaSpace(ids: seq<string>)
    requires |ids| > 0
    ensures Join(ids, ", ") == Join(Commaed(ids), " ")
    decreases |ids|
  {
    if |ids| > 1 {
      JoinCommaSpace(ids[1..]);
      var c := Commaed(ids);
      assert c[0] == ids[0] + "," && c[1..] == Commaed(ids[1..]);
      assert ids[0] + ", " == ids[0] + "," + " ";
    }
  }

  lemma {:induction false} CommaedAreWords(ids: seq<string>)
    requires forall i :: 0 <= i < |ids| ==> IsWord(ids[i])
    ensures forall i :: 0 <= i < |ids| ==> IsWord(Commaed(ids)[i])
    decreases |ids|
  {
    if |ids| > 1 {
      CommaedAreWords(ids[1..]);
      var c := Commaed(ids);
      forall i | 0 <= i < |ids|
        ensures IsWord(c[i])
      {
        if i > 0 {
          assert c[i] == Commaed(ids[1..])[i - 1];
        }
      }
    }
  }

  lemma CourseCodeIsWord(id: string)
    requires CourseIds.IsCourseCode(id)
    ensures IsWord(id)
  {
    forall k | 0 <= k < |id|
      ensures !IsPyWhitespace(id[k])
    {
      assert IsAsciiUpper(id[k]) || IsAsciiDigit(id[k]);
    }
  }

  /** A chat about courses is titled with its course ids, comma-separated,
      followed by the word "Question". */
  lemma {:induction false} ChatNameForCourses(query: string)
    requires |CourseIds.ExtractCourseIds(query)| > 0
    ensures var ids := CourseIds.ExtractCourseIds(query);
      Split(ChatName(query)) == Commaed(ids) + ["Question"]
  {
    var ids := CourseIds.ExtractCourseIds(query);
    CourseIds.ExtractedAreCodes(query);
    forall i | 0 <= i < |ids|
      ensures IsWord(ids[i])
    {
      assert ids[i] in ids;
      CourseCodeIsWord(ids[i]);
    }
    CommaedAreWords(ids);
    var c := Commaed(ids);
    assert ChatName(query) == Join(c, " ") + " " + "Question" by {
      JoinCommaSpace(ids);
    }
    JoinSnoc(c, " ", "Question");
    SplitJoin(c + ["Question"]);
  }

  /** Without course ids, a query of at most four words is its own title;
      a longer one is cut to its first four words, the fourth followed by
      an ellipsis. */
  lemma {:induction false} ChatNameForText(query: string)
    requires |CourseIds.ExtractCourseIds(query)| == 0
    ensures |Split(query)| <= 4 ==> ChatName(query) == query
    ensures |Split(query)| > 4 ==>
      var words := Split(query);
      && Split(ChatName(query)) == words[..3] + [words[3] + "..."]
      && ChatName(query)[|ChatName(query)| - 3..] == "..."
  {
    var words := Split(query);
    if |words| > 4 {
      var w4 := words[..4];
      JoinAppendLast(w4, " ", "...");
      var parts := w4[..3] + [w4[3] + "..."];
      assert parts == words[..3] + [words[3] + "..."];
      forall i | 0 <= i < |parts|
        ensures IsWord(parts[i])
      {
        if i < 3 {
          assert parts[i] == words[i];
        } else {
          assert IsWord(words[3]);
        }
      }
      SplitJoin(parts);
    }
  }
}
