/** The three cluster-status predicates of `ExternalCephControl`
    (tests/ceph_ctl.py). Each takes the captured output of one `ceph` command
    and decides whether the cluster has converged. The source catches only
    `ValueError` (a wrong number of fields when unpacking); a field with no
    whitespace-separated token raises an `IndexError` that escapes, so each
    predicate has three outcomes. */
module Status {
  import opened Py
  import opened PyText
  import Decimal

  datatype Verdict =
    | Converged     // the predicate returned True
    | NotConverged  // the predicate returned False
    | Crashed       // the predicate raised IndexError

  // ---------------------------------------------------------------------
  // `ceph osd lspools`
  // ---------------------------------------------------------------------

  /** The pool list of a fresh cluster, as `ceph osd lspools` prints it. */
  const DefaultPools: string := "0 data,1 metadata,2 rbd,"

  /** `_check_default_pools_only`. */
  function CheckDefaultPoolsOnly(output: Option<string>): (v: Verdict)
    ensures v != Crashed
    ensures !Truthy(output) ==> v == NotConverged
  {
    if Truthy(output) && Strip(output.value) == DefaultPools then Converged else NotConverged
  }

  /** `s` is `core` with only whitespace before and after it. */
  ghost predicate PaddedBy(s: string, core: string)
  {
    exists k :: PaddedAt(s, core, k)
  }

  /** `core` starts at index `k` of `s`, with only whitespace around it. */
  predicate PaddedAt(s: string, core: string, k: nat)
  {
    k + |core| <= |s| && s[k..k + |core|] == core
    && (forall i :: 0 <= i < k ==> IsSpace(s[i]))
    && (forall i :: k + |core| <= i < |s| ==> IsSpace(s[i]))
  }

  /** The pool check accepts exactly the default pool list, in its order,
      surrounded by nothing but whitespace. */
  lemma DefaultPoolsExactly(s: string)
    ensures CheckDefaultPoolsOnly(Some(s)) == Converged <==> PaddedBy(s, DefaultPools)
  {
    if CheckDefaultPoolsOnly(Some(s)) == Converged {
      ConvergedPoolsArePadded(s);
    }
    if PaddedBy(s, DefaultPools) {
      PaddedPoolsConverge(s);
    }
  }

  lemma ConvergedPoolsArePadded(s: string)
    requires Strip(s) == DefaultPools
    ensures PaddedBy(s, DefaultPools)
  {
    var r := Strip(s);
    var k := LeadingSpace(s);
    assert PaddedAt(s, DefaultPools, k);
  }

  lemma PaddedPoolsConverge(s: string)
    requires PaddedBy(s, DefaultPools)
    ensures CheckDefaultPoolsOnly(Some(s)) == Converged
  {
    var core := DefaultPools;
    var j: nat :| PaddedAt(s, core, j);
    assert Trimmed(core) by {
      assert core[0] == '0' && core[|core| - 1] == ',';
    }
    StripAround(s, j, core);
  }

  /** The default list itself, with any whitespace around it, is accepted. */
  lemma DefaultPoolsPadded(pre: string, post: string)
    requires Blank(pre) && Blank(post)
    ensures CheckDefaultPoolsOnly(Some(pre + DefaultPools + post)) == Converged
  {
    var core := DefaultPools;
    assert Trimmed(core) by {
      assert core[0] == '0' && core[|core| - 1] == ',';
    }
    StripPadded(pre, core, post);
  }

  /** Any further pool after the defaults (anything not blank) is refused. */
  lemma ExtraPoolRefused(extra: string)
    requires !Blank(extra)
    ensures CheckDefaultPoolsOnly(Some(DefaultPools + extra)) == NotConverged
  {
    var s := DefaultPools + extra;
    assert s[..0] == [];
    LeadingSpaceUnique(s, 0);
  }

  // ---------------------------------------------------------------------
  // Shared: `x.split()[0]`
  // ---------------------------------------------------------------------

  /** `x.split()[0]`, defined where Python does not raise `IndexError`. */
  function FirstWord(x: string): (w: string)
    requires !Blank(x)
    ensures |w| > 0 && NoSpace(w)
    ensures var k := LeadingSpace(x);
      k + |w| <= |x| && x[k..k + |w|] == w && (k + |w| == |x| || IsSpace(x[k + |w|]))
  {
    FirstWordAt(x);
    Words(x)[0]
  }

  /** Some piece has no token: `[x.split()[0] for x in pieces]` raises. */
  predicate SomeBlank(pieces: seq<string>)
  {
    exists i :: 0 <= i < |pieces| && Blank(pieces[i])
  }

  /** `s.replace(alt, ':').split(':')`: the fields of a status line
      delimited by `:` or by `alt`. */
  function FieldPieces(s: string, alt: char): (pieces: seq<string>)
    ensures forall i :: 0 <= i < |pieces| ==> ':' !in pieces[i] && alt !in pieces[i]
    ensures |pieces| > 0 && Join(pieces, ':') == Replace(s, alt, ':')
    ensures |pieces| == 1 <==> ':' !in s && alt !in s
  {
    var t := Replace(s, alt, ':');
    ReplaceHolds(s, alt, ':');
    forall i, c | 0 <= i < |Split(t, ':')| && c in Split(t, ':')[i] ensures c in t {
      JoinHolds(Split(t, ':'), ':', i, c);
    }
    Split(t, ':')
  }

  // ---------------------------------------------------------------------
  // `ceph osd stat`
  // ---------------------------------------------------------------------

  /** `output.replace(',', ':').split(':')`. */
  function OsdPieces(s: string): seq<string>
  {
    FieldPieces(s, ',')
  }

  /** `_check_osd_up_and_in`: the first tokens of the second, third and
      fourth piece (total, up, in) must be the same text. */
  function CheckOsdUpAndIn(output: Option<string>): (v: Verdict)
    ensures !Truthy(output) ==> v == NotConverged
    ensures v == Crashed <==> Truthy(output) && SomeBlank(OsdPieces(output.value))
    ensures v == Converged <==>
      && Truthy(output)
      && var p := OsdPieces(output.value);
      && |p| == 4
      && !SomeBlank(p)
      && FirstWord(p[1]) == FirstWord(p[2]) == FirstWord(p[3])
  {
    if !Truthy(output) then NotConverged
    else
      var pieces := OsdPieces(output.value);
      // the list comprehension runs before the unpacking, so a piece
      // without a token raises before the count is checked
      if SomeBlank(pieces) then Crashed
      else if |pieces| != 4 then NotConverged
      else
        var total, up, inCount := FirstWord(pieces[1]), FirstWord(pieces[2]), FirstWord(pieces[3]);
        if total == inCount && inCount == up then Converged else NotConverged
  }

  /** A field of a status line: a non-empty token free of the separators. */
  predicate Token(w: string)
  {
    |w| > 0 && NoSpace(w) && ':' !in w && ',' !in w && ';' !in w
  }

  /** The leading field of a status line: any non-blank text free of the separators. */
  predicate Head(h: string)
  {
    !Blank(h) && ':' !in h && ',' !in h && ';' !in h
  }

  /** The shape of a `ceph osd stat` line: `<head>: <total> osds: <up> up, <in> in`. */
  function OsdStatText(head: string, total: string, up: string, inCount: string): string
  {
    head + ": " + total + " osds: " + up + " up, " + inCount + " in\n"
  }

  /** A four-field line whose third separator is `third` (',' or ';') splits
      back into its four fields once `third` is replaced by ':'. */
  lemma {:induction false} FourPieces(a: string, b: string, c: string, d: string, third: char)
    requires third == ',' || third == ';'
    requires ':' !in a && ':' !in b && ':' !in c && ':' !in d
    requires third !in a && third !in b && third !in c && third !in d
    ensures Split(Replace(a + ":" + b + ":" + c + [third] + d, third, ':'), ':') == [a, b, c, d]
  {
    var x := a + ":" + b + ":" + c;
    InConcat(a, ":");
    InConcat(a + ":", b);
    InConcat(a + ":" + b, ":");
    InConcat(a + ":" + b + ":", c);
    ReplaceAbsent(x, third, ':');
    ReplaceAbsent(d, third, ':');
    ReplaceConcat([third], d, third, ':');
    ReplaceConcat(x, [third] + d, third, ':');
    assert x + [third] + d == x + ([third] + d);
    var pieces := [a, b, c, d];
    assert Join(pieces[3..], ':') == d;
    assert Join(pieces[2..], ':') == c + [':'] + d;
    assert Join(pieces[1..], ':') == b + [':'] + (c + [':'] + d);
    assert Join(pieces, ':') == a + [':'] + (b + [':'] + (c + [':'] + d));
    assert Replace(x + [third] + d, third, ':') == Join(pieces, ':');
    SplitJoin(pieces, ':');
  }

  /** A token after a blank is the first word of a field. */
  lemma FirstWordAfterSpace(w: string, rest: string)
    requires Token(w) && WordBoundary(rest) && ':' !in rest && ',' !in rest && ';' !in rest
    ensures var f := " " + w + rest;
      && ':' !in f && ',' !in f && ';' !in f
      && !Blank(f) && FirstWord(f) == w
  {
    var sp: string := " ";
    assert Blank(sp);
    InConcat(sp, w);
    InConcat(sp + w, rest);
    WordsCons(sp, w, rest);
  }

  /** A token on its own is its only word. */
  lemma TokenWords(w: string)
    requires Token(w)
    ensures Words(w) == [w]
  {
    var none: string := "";
    assert Blank(none);
    WordsCons(none, w, none);
    assert none + w + none == w;
  }

  /** The four fields of a `ceph osd stat` line. */
  function OsdStatFields(head: string, total: string, up: string, inCount: string): seq<string>
  {
    [head, " " + total + " osds", " " + up + " up", " " + inCount + " in\n"]
  }

  lemma OsdStatPieces(head: string, total: string, up: string, inCount: string)
    requires Head(head) && Token(total) && Token(up) && Token(inCount)
    ensures var f := OsdStatFields(head, total, up, inCount);
      && !Blank(f[1]) && !Blank(f[2]) && !Blank(f[3])
      && FirstWord(f[1]) == total && FirstWord(f[2]) == up && FirstWord(f[3]) == inCount
      && !SomeBlank(f)
  {
    var b, c, d := " " + total + " osds", " " + up + " up", " " + inCount + " in\n";
    FirstWordAfterSpace(total, " osds");
    FirstWordAfterSpace(up, " up");
    FirstWordAfterSpace(inCount, " in\n");
    NoneBlank(head, b, c, d);
    assert OsdStatFields(head, total, up, inCount) == [head, b, c, d];
  }

  lemma NoneBlank(a: string, b: string, c: string, d: string)
    requires !Blank(a) && !Blank(b) && !Blank(c) && !Blank(d)
    ensures !SomeBlank([a, b, c, d])
  {
    var f := [a, b, c, d];
    forall i | 0 <= i < 4 ensures !Blank(f[i]) {
      if i == 0 { assert f[i] == a; }
      else if i == 1 { assert f[i] == b; }
      else if i == 2 { assert f[i] == c; }
      else { assert f[i] == d; }
    }
  }

  lemma OsdStatSplit(head: string, total: string, up: string, inCount: string)
    requires Head(head) && ':' !in total && ':' !in up && ':' !in inCount
    requires ',' !in total && ',' !in up && ',' !in inCount
    ensures OsdPieces(OsdStatText(head, total, up, inCount)) == OsdStatFields(head, total, up, inCount)
  {
    var f := OsdStatFields(head, total, up, inCount);
    InConcat(" ", total); InConcat(" " + total, " osds");
    InConcat(" ", up); InConcat(" " + up, " up");
    InConcat(" ", inCount); InConcat(" " + inCount, " in\n");
    assert OsdStatText(head, total, up, inCount) == f[0] + ":" + f[1] + ":" + f[2] + [','] + f[3];
    FourPieces(f[0], f[1], f[2], f[3], ',');
  }

  /** The osd check reads a well-formed `ceph osd stat` line correctly: it
      converges exactly when total, up and in are the same text. */
  lemma OsdStatVerdict(head: string, total: string, up: string, inCount: string)
    requires Head(head) && Token(total) && Token(up) && Token(inCount)
    ensures CheckOsdUpAndIn(Some(OsdStatText(head, total, up, inCount)))
      == if total == up == inCount then Converged else NotConverged
  {
    OsdStatSplit(head, total, up, inCount);
    OsdStatPieces(head, total, up, inCount);
  }

  /** Decimal counts as the tool prints them: converged exactly when the
      three numbers are equal. */
  lemma OsdStatCounts(epoch: nat, total: nat, up: nat, inCount: nat)
    ensures var line := OsdStatText(OsdMapHead(epoch), Decimal.NatToString(total),
                                    Decimal.NatToString(up), Decimal.NatToString(inCount));
      CheckOsdUpAndIn(Some(line)) == if total == up == inCount then Converged else NotConverged
  {
    DigitsAreTokens(total);
    DigitsAreTokens(up);
    DigitsAreTokens(inCount);
    OsdMapHeadIsHead(epoch);
    OsdStatVerdict(OsdMapHead(epoch), Decimal.NatToString(total), Decimal.NatToString(up), Decimal.NatToString(inCount));
    Decimal.NatToStringInjective(total, up);
    Decimal.NatToStringInjective(up, inCount);
  }

  /** The leading field the tool prints before the osd counts. */
  function OsdMapHead(epoch: nat): string
  {
    "     osdmap e" + Decimal.NatToString(epoch)
  }

  lemma OsdMapHeadIsHead(epoch: nat)
    ensures Head(OsdMapHead(epoch))
  {
    DigitsAreTokens(epoch);
    InConcat("     osdmap e", Decimal.NatToString(epoch));
    assert OsdMapHead(epoch)[5] == 'o';
  }

  lemma DigitsAreTokens(n: nat)
    ensures Token(Decimal.NatToString(n))
  {
    var s := Decimal.NatToString(n);
    assert forall i :: 0 <= i < |s| ==> Decimal.IsDigit(s[i]);
  }

  // ---------------------------------------------------------------------
  // `ceph pg stat`
  // ---------------------------------------------------------------------

  const ActiveClean: string := "active+clean"

  /** `output.replace(';', ':').split(':')`. */
  function PgPieces(s: string): seq<string>
  {
    FieldPieces(s, ';')
  }

  /** `_check_pgs_active_and_clean`: the placement-group piece must read
      `<count> active+clean` and its count must be the same text as the total. */
  function CheckPgsActiveAndClean(output: Option<string>): (v: Verdict)
    ensures !Truthy(output) ==> v == NotConverged
    ensures Truthy(output) && |PgPieces(output.value)| != 4 ==> v == NotConverged
    ensures v == Converged <==>
      && Truthy(output)
      && var p := PgPieces(output.value);
      && |p| == 4
      && |Words(p[2])| >= 2 && Words(p[2])[1] == ActiveClean
      && |Words(p[1])| > 0 && Words(p[1])[0] == Words(p[2])[0]
    ensures v == Crashed <==>
      && Truthy(output)
      && var p := PgPieces(output.value);
      && |p| == 4
      && (|Words(p[2])| < 2 || (Words(p[2])[1] == ActiveClean && Blank(p[1])))
  {
    if !Truthy(output) then NotConverged
    else
      var pieces := PgPieces(output.value);
      if |pieces| != 4 then NotConverged
      else
        var totalStat, pgStat := pieces[1], pieces[2];
        var pgWords := Words(pgStat);
        if |pgWords| < 2 then Crashed
        else if pgWords[1] != ActiveClean then NotConverged
        else
          var totalWords := Words(totalStat);
          if |totalWords| == 0 then Crashed
          else if totalWords[0] == pgWords[0] then Converged else NotConverged
  }

  /** The shape of a `ceph pg stat` line:
      `<head>: <total> pgs: <count> <state>; <usage>`. */
  function PgStatText(head: string, total: string, count: string, state: string, usage: string): string
  {
    head + ": " + total + " pgs: " + count + " " + state + "; " + usage
  }

  /** The four fields of a `ceph pg stat` line. */
  function PgStatFields(head: string, total: string, count: string, state: string, usage: string): seq<string>
  {
    [head, " " + total + " pgs", " " + count + " " + state, " " + usage]
  }

  lemma PgStatSplit(head: string, total: string, count: string, state: string, usage: string)
    requires Head(head) && Token(total) && Token(count) && Token(state)
    requires ':' !in usage && ';' !in usage
    ensures PgPieces(PgStatText(head, total, count, state, usage)) == PgStatFields(head, total, count, state, usage)
  {
    var f := PgStatFields(head, total, count, state, usage);
    InConcat(" ", total); InConcat(" " + total, " pgs");
    InConcat(" ", count); InConcat(" " + count, " "); InConcat(" " + count + " ", state);
    InConcat(" ", usage);
    assert PgStatText(head, total, count, state, usage) == f[0] + ":" + f[1] + ":" + f[2] + [';'] + f[3];
    FourPieces(f[0], f[1], f[2], f[3], ';');
  }

  /** Two tokens after a blank are the words of a field. */
  lemma TwoWordsAfterSpace(w1: string, w2: string)
    requires Token(w1) && Token(w2)
    ensures Words(" " + w1 + " " + w2) == [w1, w2]
  {
    var sp: string := " ";
    var ws := [w1, w2];
    assert Blank(sp);
    assert Unwords(ws) == w1 + " " + w2 by {
      assert ws[1..] == [w2];
    }
    assert " " + w1 + " " + w2 == sp + Unwords(ws);
    WordsSkipBlank(sp, Unwords(ws));
    WordsUnwords(ws);
  }

  /** The pg check reads a well-formed `ceph pg stat` line correctly: it
      converges exactly when the state is `active+clean` and its count is the
      same text as the total. */
  lemma PgStatVerdict(head: string, total: string, count: string, state: string, usage: string)
    requires Head(head) && Token(total) && Token(count) && Token(state)
    requires ':' !in usage && ';' !in usage
    ensures CheckPgsActiveAndClean(Some(PgStatText(head, total, count, state, usage)))
      == if state == ActiveClean && total == count then Converged else NotConverged
  {
    var text := PgStatText(head, total, count, state, usage);
    var f := PgStatFields(head, total, count, state, usage);
    PgStatSplit(head, total, count, state, usage);
    FirstWordAfterSpace(total, " pgs");
    TwoWordsAfterSpace(count, state);
    assert f[1] == " " + total + " pgs";
    assert f[2] == " " + count + " " + state;
    PgVerdictOfFields(text, f, total, count, state);
  }

  /** The pg check on a line whose placement-group field holds two words. */
  lemma PgVerdictOfFields(s: string, p: seq<string>, total: string, count: string, state: string)
    requires |s| > 0 && PgPieces(s) == p && |p| == 4
    requires !Blank(p[1]) && FirstWord(p[1]) == total && Words(p[2]) == [count, state]
    ensures CheckPgsActiveAndClean(Some(s)) == if state == ActiveClean && total == count then Converged else NotConverged
  {
  }

  /** The leading field the tool prints before the placement-group counts. */
  function PgMapHead(version: nat): string
  {
    "v" + Decimal.NatToString(version)
  }

  lemma PgMapHeadIsHead(version: nat)
    ensures Head(PgMapHead(version))
  {
    DigitsAreTokens(version);
    InConcat("v", Decimal.NatToString(version));
    assert PgMapHead(version)[0] == 'v';
  }

  /** Decimal counts as the tool prints them: converged exactly when every
      placement group is `active+clean`. */
  lemma PgStatCounts(version: nat, total: nat, count: nat, state: string, usage: string)
    requires Token(state) && ':' !in usage && ';' !in usage
    ensures var line := PgStatText(PgMapHead(version), Decimal.NatToString(total),
                                   Decimal.NatToString(count), state, usage);
      CheckPgsActiveAndClean(Some(line)) == if state == ActiveClean && total == count then Converged else NotConverged
  {
    DigitsAreTokens(total);
    DigitsAreTokens(count);
    PgMapHeadIsHead(version);
    PgStatVerdict(PgMapHead(version), Decimal.NatToString(total), Decimal.NatToString(count), state, usage);
    Decimal.NatToStringInjective(total, count);
  }
}
