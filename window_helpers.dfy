/**
 * Small helpers of the control window (`Window`): reading a coordinate
 * field as `int('0' + text)`, deriving a region's width and height, listing
 * the teams of the athlete table in first-seen order, and listing the
 * players of one team. The table arrives as rows of cells (after the
 * header row); a row too short for a cell the code reads raises
 * `IndexError`, which ends the loop with the items added so far.
 */
module WindowHelpers {
  import opened Options
  import opened Decimal
  import opened Sequences

  /** ASCII whitespace, as `int()` strips it: space, \t, \n, \v, \f, \r. */
  predicate IsSpace(c: char) {
    c == ' ' || 9 <= c as int <= 13
  }

  predicate AllSpaces(s: string) {
    forall i :: 0 <= i < |s| ==> IsSpace(s[i])
  }

  /** `s.rstrip()`: drop the trailing whitespace. */
  function TrimTrailing(s: string): (r: string)
    ensures |r| <= |s| && r == s[..|r|]
    ensures AllSpaces(s[|r|..])
    ensures r == [] || !IsSpace(r[|r| - 1])
  {
    if s != [] && IsSpace(s[|s| - 1]) then
      var r := TrimTrailing(s[..|s| - 1]);
      assert s[|r|..] == s[..|s| - 1][|r|..] + [s[|s| - 1]];
      r
    else s
  }

  /**
   * `int('0' + text)`: the '0' makes an empty field read as 0 and rules
   * out a sign or leading whitespace; trailing whitespace is ignored; any
   * other character raises `ValueError` (here `None`).
   */
  function ParseField(text: string): (r: Option<nat>)
    ensures r.Some? ==> forall i :: 0 <= i < |text| ==> IsDigitChar(text[i]) || IsSpace(text[i])
  {
    var u := "0" + text;
    var t := TrimTrailing(u);
    if AllDigits(t) then
      TrimmedToDigits(u);
      assert forall i :: 0 <= i < |text| ==> text[i] == u[i + 1];
      Some(Value(t))
    else None
  }

  /** Text that trims to digits holds only digits and whitespace. */
  lemma {:induction false} TrimmedToDigits(u: string)
    requires AllDigits(TrimTrailing(u))
    ensures forall i :: 0 <= i < |u| ==> IsDigitChar(u[i]) || IsSpace(u[i])
  {
    var t := TrimTrailing(u);
    var rest := u[|t|..];
    assert t == u[..|t|] && AllDigits(t) && AllSpaces(rest);
    forall i | 0 <= i < |u|
      ensures IsDigitChar(u[i]) || IsSpace(u[i])
    {
      if i < |t| {
        assert u[i] == t[i] && IsDigitChar(t[i]);
      } else {
        assert u[i] == rest[i - |t|] && IsSpace(rest[i - |t|]);
      }
    }
  }

  /** Digits followed by whitespace trim back to the digits. */
  lemma {:induction false} TrimDigitsThenSpaces(d: string, w: string)
    requires |d| > 0 && AllDigits(d) && AllSpaces(w)
    ensures TrimTrailing(d + w) == d
  {
    if w == [] {
      assert d + w == d;
    } else {
      assert (d + w)[..|d + w| - 1] == d + w[..|w| - 1];
      TrimDigitsThenSpaces(d, w[..|w| - 1]);
    }
  }

  /** A field is accepted exactly when it is digits followed by whitespace, and reads as those digits. */
  lemma ParseFieldAccepts(text: string, k: nat)
    requires k <= |text| && AllDigits(text[..k]) && AllSpaces(text[k..])
    ensures ParseField(text) == Some(Value(text[..k]))
  {
    var d, w := text[..k], text[k..];
    assert "0" + text == ("0" + d) + w;
    LeadingZero(d);
    TrimDigitsThenSpaces("0" + d, w);
  }

  lemma ParseFieldRejects(text: string)
    requires ParseField(text).Some?
    ensures exists k :: 0 <= k <= |text| && AllDigits(text[..k]) && AllSpaces(text[k..])
  {
    var u := "0" + text;
    var t := TrimTrailing(u);
    var k := |t| - 1;
    assert u[0] == '0' && !IsSpace(u[0]);
    assert !AllSpaces(u) && u[0..] == u;
    assert |t| >= 1;
    assert text[..k] == t[1..];
    assert text[k..] == u[|t|..];
  }

  /** An empty field reads as 0. */
  lemma ParseFieldEmpty()
    ensures ParseField("") == Some(0)
  {
    ParseFieldAccepts("", 0);
    assert Value("") == 0;
  }

  /** A field holding `str(n)` reads back as `n`. */
  lemma ParseFieldShow(n: nat)
    ensures ParseField(Show(n)) == Some(n)
  {
    var s := Show(n);
    assert s[..|s|] == s && s[|s|..] == [];
    ParseFieldAccepts(s, |s|);
  }

  /**
   * application.py:444-449: width and height of a region from its corner fields,
   * `br - tl` each (negative when the corners are swapped); `None` when a
   * field does not parse.
   */
  function RegionSize(tlX: string, tlY: string, brX: string, brY: string): (r: Option<(int, int)>)
    ensures r.Some? <==>
      ParseField(tlX).Some? && ParseField(tlY).Some? && ParseField(brX).Some? && ParseField(brY).Some?
  {
    match (ParseField(tlX), ParseField(tlY), ParseField(brX), ParseField(brY))
    case (Some(x0), Some(y0), Some(x1), Some(y1)) => Some((x1 as int - x0, y1 as int - y0))
    case _ => None
  }

  /** Corners written as numbers give the differences; empty corners give a 0 x 0 region. */
  lemma RegionSizeOfNumbers(x0: nat, y0: nat, x1: nat, y1: nat)
    ensures RegionSize(Show(x0), Show(y0), Show(x1), Show(y1)) == Some((x1 as int - x0, y1 as int - y0))
    ensures RegionSize("", "", "", "") == Some((0, 0))
  {
    ParseFieldShow(x0);
    ParseFieldShow(y0);
    ParseFieldShow(x1);
    ParseFieldShow(y1);
    RegionSizeOfFields(Show(x0), Show(y0), Show(x1), Show(y1), x0, y0, x1, y1);
    ParseFieldEmpty();
    RegionSizeOfFields("", "", "", "", 0, 0, 0, 0);
  }

  lemma RegionSizeOfFields(tlX: string, tlY: string, brX: string, brY: string, x0: nat, y0: nat, x1: nat, y1: nat)
    requires ParseField(tlX) == Some(x0) && ParseField(tlY) == Some(y0)
    requires ParseField(brX) == Some(x1) && ParseField(brY) == Some(y1)
    ensures RegionSize(tlX, tlY, brX, brY) == Some((x1 as int - x0, y1 as int - y0))
  {
  }

  /** How many leading rows the loop gets through before a row it cannot read. */
  function ReadablePrefix(rows: seq<seq<string>>, readable: seq<string> -> bool): (n: nat)
    ensures n <= |rows|
    ensures forall i :: 0 <= i < n ==> readable(rows[i])
    ensures n < |rows| ==> !readable(rows[n])
  {
    if rows == [] || !readable(rows[0]) then 0
    else
      var n := 1 + ReadablePrefix(rows[1..], readable);
      assert forall i :: 1 <= i < n ==> rows[i] == rows[1..][i - 1];
      n
  }

  /** The team cell `row[1]` exists. */
  predicate HasTeam(row: seq<string>) {
    1 < |row|
  }

  /** The cells `populatePlayersSelector` reads exist: `row[1]`, and `row[2]` for the chosen team. */
  predicate HasPlayerFor(row: seq<string>, team: string) {
    1 < |row| && (row[1] == team ==> 2 < |row|)
  }

  /** The team cell of every row, in order. */
  function Teams(rows: seq<seq<string>>): (t: seq<string>)
    requires forall i :: 0 <= i < |rows| ==> 1 < |rows[i]|
    ensures |t| == |rows| && forall i :: 0 <= i < |rows| ==> t[i] == rows[i][1]
  {
    if rows == [] then [] else Teams(rows[..|rows| - 1]) + [rows[|rows| - 1][1]]
  }

  /** The player cell of the rows of `team`, in order. */
  function PlayersOf(rows: seq<seq<string>>, team: string): (p: seq<string>)
    requires forall i :: 0 <= i < |rows| ==> HasPlayerFor(rows[i], team)
    ensures |p| <= |rows|
  {
    if rows == [] then []
    else
      var last := rows[|rows| - 1];
      assert HasPlayerFor(last, team);
      PlayersOf(rows[..|rows| - 1], team) + (if last[1] == team then [last[2]] else [])
  }

  /** A single row contributes its player cell exactly when it is a row of `team`. */
  lemma PlayersOfRow(row: seq<string>, team: string)
    requires HasPlayerFor(row, team)
    ensures PlayersOf([row], team) == if row[1] == team then [row[2]] else []
  {
    assert [row][..0] == [];
  }

  /** Rows are processed in order: the players of two blocks of rows are those of the first, then the second. */
  lemma {:induction false} PlayersOfConcat(a: seq<seq<string>>, b: seq<seq<string>>, team: string)
    requires forall i :: 0 <= i < |a| ==> HasPlayerFor(a[i], team)
    requires forall i :: 0 <= i < |b| ==> HasPlayerFor(b[i], team)
    ensures forall i :: 0 <= i < |a + b| ==> HasPlayerFor((a + b)[i], team)
    ensures PlayersOf(a + b, team) == PlayersOf(a, team) + PlayersOf(b, team)
  {
    assert forall i :: 0 <= i < |a + b| ==> (a + b)[i] == if i < |a| then a[i] else b[i - |a|];
    if b == [] {
      assert a + b == a;
    } else {
      var init := b[..|b| - 1];
      assert (a + b)[..|a + b| - 1] == a + init;
      assert (a + b)[|a + b| - 1] == b[|b| - 1];
      PlayersOfConcat(a, init, team);
    }
  }

  /** A name is listed exactly when some row of the team holds it. */
  lemma {:induction false} PlayersOfMembers(rows: seq<seq<string>>, team: string, name: string)
    requires forall i :: 0 <= i < |rows| ==> HasPlayerFor(rows[i], team)
    ensures name in PlayersOf(rows, team) <==>
      exists i :: 0 <= i < |rows| && rows[i][1] == team && rows[i][2] == name
  {
    if rows != [] {
      var init := rows[..|rows| - 1];
      PlayersOfMembers(init, team, name);
      assert forall i :: 0 <= i < |init| ==> init[i] == rows[i];
    }
  }

  /**
   * application.py:273-279: add each row's team to the list unless it is there
   * already; the list is the team selector's items.
   */
  method UniqueTeams(rows: seq<seq<string>>) returns (teams: seq<string>, complete: bool)
    ensures var n := ReadablePrefix(rows, HasTeam);
      complete == (n == |rows|) && teams == Dedup(Teams(rows[..n]))
  {
    ghost var n := ReadablePrefix(rows, HasTeam);
    teams := [];
    var i := 0;
    while i < |rows| && HasTeam(rows[i])
      invariant 0 <= i <= n
      invariant forall j :: 0 <= j < n ==> 1 < |rows[j]|
      invariant teams == Dedup(Teams(rows[..i]))
    {
      TeamsStep(rows, i);
      if rows[i][1] !in teams {
        teams := teams + [rows[i][1]];
      }
      i := i + 1;
    }
    assert i == n;
    assert rows[..i] == rows[..n];
    complete := i == |rows|;
  }

  /** One more row adds its team at the end of the list. */
  lemma TeamsStep(rows: seq<seq<string>>, i: nat)
    requires i < |rows| && forall j :: 0 <= j <= i ==> 1 < |rows[j]|
    ensures Dedup(Teams(rows[..i + 1])) == AppendIfAbsent(Dedup(Teams(rows[..i])), rows[i][1])
  {
    assert rows[..i + 1][..i] == rows[..i];
    var names := Teams(rows[..i + 1]);
    assert names == Teams(rows[..i]) + [rows[i][1]];
    assert names[..i] == Teams(rows[..i]);
  }

  /**
   * application.py:297-304: after clearing the player selector, add the player
   * cell of every row whose team cell is the selected team.
   */
  method PopulatePlayers(rows: seq<seq<string>>, team: string) returns (players: seq<string>, complete: bool)
    ensures var n := ReadablePrefix(rows, row => HasPlayerFor(row, team));
      complete == (n == |rows|) && players == PlayersOf(rows[..n], team)
  {
    players := [];
    var i := 0;
    while i < |rows| && HasPlayerFor(rows[i], team)
      invariant 0 <= i <= ReadablePrefix(rows, row => HasPlayerFor(row, team))
      invariant players == PlayersOf(rows[..i], team)
    {
      assert rows[..i + 1][..i] == rows[..i];
      if rows[i][1] == team {
        players := players + [rows[i][2]];
      }
      i := i + 1;
    }
    complete := i == |rows|;
  }
}
