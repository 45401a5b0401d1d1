/** Concrete status lines and what the three checks of
    `ExternalCephControl` make of them, including the lines that make a
    check raise and the lines that look converged but are refused. */
module Scenarios {
  import opened Py
  import opened PyText
  import opened Status
  import Decimal

  /** A lone newline has one piece and no token in it: `x.split()[0]`
      raises `IndexError` out of the osd check. */
  lemma NewlineCrashesOsdCheck()
    ensures CheckOsdUpAndIn(Some("\n")) == Crashed
  {
    var s := "\n";
    ReplaceAbsent(s, ',', ':');
    var p := Split(s, ':');
    assert |p| == 1 && Join(p, ':') == p[0];
    assert Blank(p[0]);
  }

  /** Without the leading `osdmap eN` field the line has three pieces, not
      four, so the osd check refuses it whatever the counts. */
  lemma HeadlessOsdStatRefused(total: string, up: string, inCount: string)
    requires Token(total) && Token(up) && Token(inCount)
    ensures CheckOsdUpAndIn(Some(total + " osds: " + up + " up, " + inCount + " in")) == NotConverged
  {
    HeadlessSplit(total, up, inCount);
    var a, b, c := total + " osds", " " + up + " up", " " + inCount + " in";
    assert !Blank(a) by { assert !IsSpace(a[0]); }
    assert !Blank(b) by { assert b[1] == up[0]; }
    assert !Blank(c) by { assert c[1] == inCount[0]; }
    var pieces := [a, b, c];
    assert !SomeBlank(pieces) by {
      forall i | 0 <= i < 3 ensures !Blank(pieces[i]) {
        if i == 0 { assert pieces[i] == a; }
        else if i == 1 { assert pieces[i] == b; }
        else { assert pieces[i] == c; }
      }
    }
  }

  lemma HeadlessSplit(total: string, up: string, inCount: string)
    requires Token(total) && Token(up) && Token(inCount)
    ensures OsdPieces(total + " osds: " + up + " up, " + inCount + " in")
      == [total + " osds", " " + up + " up", " " + inCount + " in"]
  {
    var pieces := [total + " osds", " " + up + " up", " " + inCount + " in"];
    HeadlessReplace(total, up, inCount);
    InConcat(total, " osds");
    InConcat(" ", up); InConcat(" " + up, " up");
    InConcat(" ", inCount); InConcat(" " + inCount, " in");
    SplitJoin(pieces, ':');
  }

  /** Turning the comma into a colon leaves the three fields joined by colons. */
  lemma HeadlessReplace(total: string, up: string, inCount: string)
    requires Token(total) && Token(up) && Token(inCount)
    ensures Replace(total + " osds: " + up + " up, " + inCount + " in", ',', ':')
      == Join([total + " osds", " " + up + " up", " " + inCount + " in"], ':')
  {
    var a, b, c := total + " osds", " " + up + " up", " " + inCount + " in";
    InConcat(total, " osds");
    InConcat(" ", up); InConcat(" " + up, " up");
    InConcat(" ", inCount); InConcat(" " + inCount, " in");
    var s := total + " osds: " + up + " up, " + inCount + " in";
    assert s == (a + ":" + b) + ("," + c);
    ReplaceAbsent(a + ":" + b, ',', ':');
    ReplaceAbsent(c, ',', ':');
    ReplaceConcat(a + ":" + b, "," + c, ',', ':');
    ReplaceConcat(",", c, ',', ':');
    var pieces := [a, b, c];
    assert Join(pieces[2..], ':') == c;
    assert Join(pieces[1..], ':') == b + [':'] + c;
  }

  /** The counts are compared as text: a zero-padded total is not the same
      count. */
  lemma PaddedCountRefused()
    ensures CheckOsdUpAndIn(Some(OsdStatText(OsdMapHead(3), "03", "3", "3"))) == NotConverged
  {
    OsdMapHeadIsHead(3);
    OsdStatVerdict(OsdMapHead(3), "03", "3", "3");
  }

  /** The line the tool prints for three osds, all up and in. */
  lemma ThreeOsdsUpAndIn()
    ensures CheckOsdUpAndIn(Some(OsdStatText("     osdmap e3", "3", "3", "3"))) == Converged
  {
    OsdMapHeadIsHead(3);
    assert OsdMapHead(3) == "     osdmap e3";
    OsdStatVerdict("     osdmap e3", "3", "3", "3");
  }

  /** The same three osds with one of them out. */
  lemma OneOsdOut()
    ensures CheckOsdUpAndIn(Some(OsdStatText("     osdmap e3", "3", "3", "2"))) == NotConverged
  {
    OsdMapHeadIsHead(3);
    assert OsdMapHead(3) == "     osdmap e3";
    OsdStatVerdict("     osdmap e3", "3", "3", "2");
  }

  /** A fourth pool is refused. */
  lemma CustomPoolRefused()
    ensures CheckDefaultPoolsOnly(Some(DefaultPools + "3 custom,")) == NotConverged
  {
    var extra := "3 custom,";
    assert !IsSpace(extra[0]);
    ExtraPoolRefused(extra);
  }

  /** The default pools in another order are refused. */
  lemma ReorderedPoolsRefused()
    ensures CheckDefaultPoolsOnly(Some("1 metadata,0 data,2 rbd,")) == NotConverged
  {
    var s := "1 metadata,0 data,2 rbd,";
    assert Trimmed(s) by {
      assert s[0] == '1' && s[|s| - 1] == ',';
    }
    var none: string := "";
    assert Blank(none);
    StripPadded(none, s, none);
    assert none + s + none == s;
    assert s[0] != DefaultPools[0];
  }

  /** The pools line as the tool prints it, with its trailing newline. */
  lemma DefaultPoolsLine()
    ensures CheckDefaultPoolsOnly(Some("0 data,1 metadata,2 rbd,\n")) == Converged
  {
    var none: string := "";
    var nl: string := "\n";
    assert Blank(none) && Blank(nl);
    DefaultPoolsPadded(none, nl);
    assert none + DefaultPools + nl == "0 data,1 metadata,2 rbd,\n";
  }

  /** A pg line whose state field holds no token makes `pg_stat.split()[1]`
      raise `IndexError` out of the pg check. */
  lemma BlankPgStateCrashes(head: string, total: string, usage: string)
    requires Head(head) && Token(total) && ':' !in usage && ';' !in usage
    ensures CheckPgsActiveAndClean(Some(head + ": " + total + " pgs: ; " + usage)) == Crashed
  {
    BlankPgSplit(head, total, usage);
    var c: string := " ";
    assert Blank(c);
    assert Words(c) == [];
  }

  lemma BlankPgSplit(head: string, total: string, usage: string)
    requires Head(head) && Token(total) && ':' !in usage && ';' !in usage
    ensures PgPieces(head + ": " + total + " pgs: ; " + usage) == [head, " " + total + " pgs", " ", " " + usage]
  {
    var b, c, d := " " + total + " pgs", " ", " " + usage;
    InConcat(" ", total); InConcat(" " + total, " pgs");
    InConcat(" ", usage);
    assert head + ": " + total + " pgs: ; " + usage == head + ":" + b + ":" + c + [';'] + d;
    FourPieces(head, b, c, d, ';');
  }
}
