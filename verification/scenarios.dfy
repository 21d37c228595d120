/** Worked instances of the e-mail pattern and the name split. */
module Scenarios {
  import opened JsString
  import opened Validation
  import opened Submission

  /** The shortest shape the pattern accepts. */
  lemma ShortestEmail()
    ensures IsValidEmail("a@b.c")
  {
    var e := "a@b.c";
    assert e[1] == '@' && e[3] == '.';
    assert IsAtom(e[..1]) && IsAtom(e[2..3]) && IsAtom(e[4..]);
  }

  /** Without a '.' after the '@' the pattern fails. */
  lemma EmailWithoutDot()
    ensures !IsValidEmail("a@b")
  {
  }

  /** White space anywhere makes the pattern fail. */
  lemma EmailWithSpace()
    ensures !IsValidEmail("a b@c.d")
  {
    EmailShapeIff("a b@c.d");
    assert IsWhitespace("a b@c.d"[1]);
  }

  /** A middle name goes to the last name; a leading space puts the whole name in the first. */
  lemma NameScenario()
    ensures SplitName("Ada Lovelace") == ("Ada", "Lovelace")
    ensures SplitName(" Ada") == (" Ada", "Ada")
  {
    var n := "Ada Lovelace";
    IndexOfIsFirst(n, ' ', 3);
    assert n[..3] == "Ada";
    assert n[4..] == "Lovelace";
    SplitNameLeadingSpace(" Ada");
  }
}
