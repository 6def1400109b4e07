/** Concrete runs from an empty store that show where two promises stop. */
module CalendarExamples {
  import opened Wrappers
  import opened Strings
  import opened Folding
  import opened Calendar
  import opened CalendarRuns
  import opened CalendarEvents

  const CAL := "cal"

  function Ensuring(): Step {
    EnsureStep(CalKey("t", "u", "work"), Props("", "", "", 0, "", ""), true, CAL, 0)
  }

  function OneLine(uid: string, line: string, sequence: int): Event {
    Event(uid, [], [], [line], sequence, Facts("", "", "", false))
  }

  function Putting(uid: string, line: string, sequence: int): Call {
    Call("", OneLine(uid, line, sequence), "u", "", 0)
  }

  /** An empty calendar. */
  lemma Ensured1()
    ensures
      var db := Run(EMPTY, [Ensuring()]);
      Inv(db) && CalLive(db, CAL) && db.objects == map[] && forall uid :: !LiveUid(db, CAL, uid)
  {
    RunInv(EMPTY, [Ensuring()]);
    assert [Ensuring()][..0] == [];
    assert CalByKey(EMPTY, CalKey("t", "u", "work")) == None;
  }

  /** Two lines that are neither volatile nor folded. */
  lemma Lines()
    ensures Settled(["X"]) && Settled(["Y"]) && CleanLine("DTSTAMP:" + "")
    ensures forall u, v, m, n :: Content(OneLine(u, "X", m)) != Content(OneLine(v, "Y", n))
  {
    assert !HasPrefix("X", "DTSTAMP") && !HasPrefix("X", "SEQUENCE") && !HasPrefix("X", "LAST-MODIFIED");
    assert !HasPrefix("Y", "DTSTAMP") && !HasPrefix("Y", "SEQUENCE") && !HasPrefix("Y", "LAST-MODIFIED");
    forall u, v, m, n ensures Content(OneLine(u, "X", m)) != Content(OneLine(v, "Y", n)) {
      var a, b := Stable(OneLine(u, "X", m)), Stable(OneLine(v, "Y", n));
      assert a == ["X", ""] && b == ["Y", ""];
      assert a[0] != b[0];
      JoinInjective(a, b);
    }
  }

  lemma Trims()
    ensures TrimSpace("") == "" && TrimSpace("a") == TrimSpace("a ") == "a" && Bare("a") && !Bare("a ")
    ensures TrimSpace("a@x") == "a@x" && TrimSpace("a@y") == "a@y"
  {
    BareIsTrimmed("");
    BareIsTrimmed("a");
    BareIsTrimmed("a@x");
    BareIsTrimmed("a@y");
    assert TrimRight("a ", Space) == "a" by { assert "a "[..1] == "a"; }
  }

  /** UIDs that differ in their domain, or have none, derive one name. */
  lemma SharedName()
    ensures DefaultObjectName("a@x") == DefaultObjectName("a@y") == DefaultObjectName("a") == "a.ics"
  {
    assert "a@x"[..1] == "a" && "a@y"[..1] == "a";
    assert IndexOf("a@x", '@') == 1 && IndexOf("a@y", '@') == 1 && IndexOf("a", '@') == -1;
    assert Sanitized("a") == "a" by { assert "a"[1..] == ""; }
  }

  /** What such a call comes down to. */
  lemma Comes(uid: string, stored: string, line: string, sequence: int)
    requires TrimSpace("") == "" && TrimSpace(uid) == stored != "" && Settled([line]) && CleanLine("DTSTAMP:" + "")
    ensures
      var c := Putting(uid, line, sequence);
      && EventOf(c) == OneLine(uid, line, sequence) && Addressed(c) && StoredUid(c) == stored
      && CreatedName(c) == DefaultObjectName(stored)
  {
  }

  lemma Creates(db: Db, c: Call, at: string)
    requires Inv(db) && CalLive(db, CAL) && db.objects == map[]
    requires Addressed(c) && EventOf(c).sequence >= 0 && CreatedName(c) == at
    ensures
      var db' := Called(db, CAL, c).0;
      && Stored(db', CAL, StoredUid(c), at) && db'.objects.Keys == {Slot(CAL, at)}
      && db'.objects[Slot(CAL, at)].sequence == EventOf(c).sequence
      && Stripped(db'.objects[Slot(CAL, at)].ical) == Content(EventOf(c))
  {
    PutFirst(db, CAL, c);
  }

  /** The first call on an empty calendar. */
  lemma First(uid: string, sequence: nat)
    requires uid == "a" || uid == "a@x"
    ensures
      var db := Called(Run(EMPTY, [Ensuring()]), CAL, Putting(uid, "X", sequence)).0;
      && Stored(db, CAL, uid, "a.ics") && db.objects.Keys == {Slot(CAL, "a.ics")}
      && db.objects[Slot(CAL, "a.ics")].sequence == sequence
      && Stripped(db.objects[Slot(CAL, "a.ics")].ical) == Content(OneLine(uid, "X", sequence))
  {
    Ensured1();
    Lines();
    Trims();
    SharedName();
    Comes(uid, uid, "X", sequence);
    Creates(Run(EMPTY, [Ensuring()]), Putting(uid, "X", sequence), "a.ics");
  }

  /** A client's event with SEQUENCE 5, then a changed one for the same UID with a
      blank after it: the stored SEQUENCE falls to 0. */
  lemma BlankUidLowersSequence()
    ensures
      var db := Called(Run(EMPTY, [Ensuring()]), CAL, Putting("a", "X", 5)).0;
      var db' := Called(db, CAL, Putting("a ", "Y", 0)).0;
      && HasUid(db, CAL, "a", "a.ics") && db.objects[Slot(CAL, "a.ics")].sequence == 5
      && HasUid(db', CAL, "a", "a.ics") && db'.objects[Slot(CAL, "a.ics")].sequence == 0
  {
    First("a", 5);
    Lines();
    Trims();
    Comes("a ", "a", "Y", 0);
    PutAgain(Called(Run(EMPTY, [Ensuring()]), CAL, Putting("a", "X", 5)).0, CAL, "a.ics", Putting("a ", "Y", 0));
  }

  lemma Replaces(db: Db, c: Call, at: string, u: string)
    requires Stored(db, CAL, u, at) && db.objects.Keys == {Slot(CAL, at)} && StoredUid(c) != u
    requires Addressed(c) && EventOf(c).sequence >= 0 && CreatedName(c) == at
    requires Stripped(db.objects[Slot(CAL, at)].ical) != Content(EventOf(c))
    ensures LiveUid(db, CAL, u) && !LiveUid(Called(db, CAL, c).0, CAL, u)
  {
    forall n ensures !HasUid(db, CAL, StoredUid(c), n) {
      if Slot(CAL, n) in db.objects { assert Slot(CAL, n) == Slot(CAL, at); }
    }
    SharedNameReplaces(db, CAL, c, u);
  }

  /** Two events whose UIDs derive one name: the second takes the first one out
      of the calendar. */
  lemma SecondTakesTheName()
    ensures
      var db := Called(Run(EMPTY, [Ensuring()]), CAL, Putting("a@x", "X", 0)).0;
      LiveUid(db, CAL, "a@x") && !LiveUid(Called(db, CAL, Putting("a@y", "Y", 0)).0, CAL, "a@x")
  {
    First("a@x", 0);
    Lines();
    Trims();
    SharedName();
    Comes("a@y", "a@y", "Y", 0);
    Replaces(Called(Run(EMPTY, [Ensuring()]), CAL, Putting("a@x", "X", 0)).0, Putting("a@y", "Y", 0), "a.ics", "a@x");
  }
}
