/** Start-up of the program: the bot token and the comma-separated user list
    are read from the environment, checked, and the list is turned into
    integer user IDs before the bot is built. */
module Startup {
  import opened Wrappers
  import opened Text
  import opened Broadcast

  /** Why start-up raises `ValueError`. */
  datatype ConfigError =
    | MissingToken                    // DISCORD_BOT_TOKEN unset or empty
    | MissingUserIds                  // DISCORD_USER_IDS unset or empty
    | InvalidUserId(literal: string)  // `int()` refused this stripped piece

  /** The stripped forms of the pieces that are not blank, in order. */
  function Tokens(pieces: seq<string>): seq<string>
    decreases |pieces|
  {
    if pieces == [] then []
    else
      var t := Strip(pieces[0]);
      (if t != [] then [t] else []) + Tokens(pieces[1..])
  }

  /** `[int(t) for t in tokens]`: the first token that `int()` refuses
      raises. */
  function ConvertTokens(ts: seq<string>): (r: Result<seq<nat>, ConfigError>)
    ensures r.Err? ==> r.error.InvalidUserId?
    decreases |ts|
  {
    if ts == [] then Ok([])
    else match ParseDecimal(ts[0])
      case None => Err(InvalidUserId(ts[0]))
      case Some(n) =>
        match ConvertTokens(ts[1..])
        case Ok(ids) => Ok([n] + ids)
        case Err(e) => Err(e)
  }

  /** The user list of `DISCORD_USER_IDS`:
      `[int(uid.strip()) for uid in raw.split(",") if uid.strip()]`. */
  function ParseUserIds(raw: string): Result<seq<nat>, ConfigError> {
    ConvertTokens(Tokens(Split(raw, ',')))
  }

  /** The conversion succeeds exactly when every token is a decimal literal. */
  lemma {:induction false} ConvertTokensOkIff(ts: seq<string>)
    ensures ConvertTokens(ts).Ok? <==> forall i :: 0 <= i < |ts| ==> ParseDecimal(ts[i]).Some?
    decreases |ts|
  {
    if ts != [] {
      ConvertTokensOkIff(ts[1..]);
      assert forall i :: 1 <= i < |ts| ==> ts[i] == ts[1..][i - 1];
    }
  }

  /** On success there is one ID per token, in token order. */
  lemma {:induction false} ConvertTokensValues(ts: seq<string>)
    requires ConvertTokens(ts).Ok?
    ensures var ids := ConvertTokens(ts).value;
      |ids| == |ts| && forall i :: 0 <= i < |ts| ==> ParseDecimal(ts[i]) == Some(ids[i])
    decreases |ts|
  {
    if ts != [] {
      ConvertTokensValues(ts[1..]);
    }
  }

  /** On failure the error names the first token that is not a literal. */
  lemma {:induction false} ConvertTokensFirstError(ts: seq<string>)
    requires ConvertTokens(ts).Err?
    ensures exists k :: (0 <= k < |ts| && ConvertTokens(ts).error == InvalidUserId(ts[k]) &&
      ParseDecimal(ts[k]).None? && (forall i :: 0 <= i < k ==> ParseDecimal(ts[i]).Some?))
    decreases |ts|
  {
    if ParseDecimal(ts[0]).Some? {
      ConvertTokensFirstError(ts[1..]);
      var k :| 0 <= k < |ts| - 1 && ConvertTokens(ts[1..]).error == InvalidUserId(ts[1..][k]) &&
        ParseDecimal(ts[1..][k]).None? && (forall i :: 0 <= i < k ==> ParseDecimal(ts[1..][i]).Some?);
      assert ConvertTokens(ts).error == InvalidUserId(ts[k + 1]);
    } else {
      assert ConvertTokens(ts).error == InvalidUserId(ts[0]);
    }
  }

  /** A non-blank, stripped piece without a comma. */
  predicate IsToken(t: string) {
    t != [] && ',' !in t && Strip(t) == t
  }

  /** Every token is a non-blank, stripped piece without a comma. */
  lemma {:induction false} TokensAreStripped(pieces: seq<string>)
    requires forall i :: 0 <= i < |pieces| ==> ',' !in pieces[i]
    ensures forall i :: 0 <= i < |Tokens(pieces)| ==> IsToken(Tokens(pieces)[i])
    decreases |pieces|
  {
    if pieces != [] {
      TokensAreStripped(pieces[1..]);
      var t := Strip(pieces[0]);
      StripIdempotent(pieces[0]);
      StripAddsNothing(pieces[0], ',');
      var rest := Tokens(pieces[1..]);
      if t != [] {
        var ts := Tokens(pieces);
        assert ts == [t] + rest;
        forall i | 0 <= i < |ts|
          ensures IsToken(ts[i])
        {
          if i > 0 {
            assert ts[i] == rest[i - 1];
          }
        }
      } else {
        assert Tokens(pieces) == rest;
      }
    }
  }

  /** Every position moved one place on. */
  function Shift(ps: seq<nat>): (r: seq<nat>)
    ensures |r| == |ps| && forall j :: 0 <= j < |ps| ==> r[j] == ps[j] + 1
  {
    if ps == [] then [] else [ps[0] + 1] + Shift(ps[1..])
  }

  /** The positions of the pieces that do not strip to nothing, ascending. */
  function KeptPositions(pieces: seq<string>): seq<nat>
    decreases |pieces|
  {
    if pieces == [] then []
    else (if Strip(pieces[0]) != [] then [0] else []) + Shift(KeptPositions(pieces[1..]))
  }

  /** Every kept position holds a piece that strips to something. */
  lemma {:induction false} KeptPositionsSound(pieces: seq<string>)
    ensures forall j :: 0 <= j < |KeptPositions(pieces)| ==>
      KeptPositions(pieces)[j] < |pieces| && Strip(pieces[KeptPositions(pieces)[j]]) != []
    decreases |pieces|
  {
    if pieces != [] {
      var rest := pieces[1..];
      KeptPositionsSound(rest);
      var rs := KeptPositions(rest);
      var head: seq<nat> := if Strip(pieces[0]) != [] then [0] else [];
      var ps := KeptPositions(pieces);
      assert ps == head + Shift(rs);
      forall j | 0 <= j < |ps|
        ensures ps[j] < |pieces| && Strip(pieces[ps[j]]) != []
      {
        if j >= |head| {
          var q := rs[j - |head|];
          assert ps[j] == q + 1 && pieces[q + 1] == rest[q];
        }
      }
    }
  }

  /** Every piece that strips to something has its position kept. */
  lemma {:induction false} KeptPositionsComplete(pieces: seq<string>)
    ensures forall p :: 0 <= p < |pieces| && Strip(pieces[p]) != [] ==> p in KeptPositions(pieces)
    decreases |pieces|
  {
    if pieces != [] {
      var rest := pieces[1..];
      KeptPositionsComplete(rest);
      var rs := KeptPositions(rest);
      var head: seq<nat> := if Strip(pieces[0]) != [] then [0] else [];
      var ps := KeptPositions(pieces);
      assert ps == head + Shift(rs);
      forall p | 0 <= p < |pieces| && Strip(pieces[p]) != []
        ensures p in ps
      {
        if p > 0 {
          assert rest[p - 1] == pieces[p];
          var k :| 0 <= k < |rs| && rs[k] == p - 1;
          assert ps[|head| + k] == p;
        }
      }
    }
  }

  /** The kept positions ascend. */
  lemma {:induction false} KeptPositionsAscending(pieces: seq<string>)
    ensures forall j, j' :: 0 <= j < j' < |KeptPositions(pieces)| ==>
      KeptPositions(pieces)[j] < KeptPositions(pieces)[j']
    decreases |pieces|
  {
    if pieces != [] {
      var rest := pieces[1..];
      KeptPositionsAscending(rest);
      var rs := KeptPositions(rest);
      var head: seq<nat> := if Strip(pieces[0]) != [] then [0] else [];
      var sh := Shift(rs);
      var ps := KeptPositions(pieces);
      assert ps == head + sh;
      forall j, j' | 0 <= j < j' < |ps|
        ensures ps[j] < ps[j']
      {
        assert ps[j'] == sh[j' - |head|] == rs[j' - |head|] + 1;
        if j >= |head| {
          assert ps[j] == sh[j - |head|] == rs[j - |head|] + 1;
        }
      }
    }
  }

  /** The tokens are the stripped pieces at the kept positions, in order. */
  lemma {:induction false} TokensAtPositions(pieces: seq<string>)
    ensures |Tokens(pieces)| == |KeptPositions(pieces)|
    ensures forall j :: 0 <= j < |Tokens(pieces)| ==>
      KeptPositions(pieces)[j] < |pieces| && Tokens(pieces)[j] == Strip(pieces[KeptPositions(pieces)[j]])
    decreases |pieces|
  {
    if pieces != [] {
      var rest := pieces[1..];
      TokensAtPositions(rest);
      var rs := KeptPositions(rest);
      var ps := KeptPositions(pieces);
      var ts := Tokens(pieces);
      var t := Strip(pieces[0]);
      var head: seq<string> := if t != [] then [t] else [];
      var headP: seq<nat> := if t != [] then [0] else [];
      assert ts == head + Tokens(rest);
      assert ps == headP + Shift(rs);
      assert |head| == |headP|;
      forall j | 0 <= j < |ts|
        ensures ps[j] < |pieces| && ts[j] == Strip(pieces[ps[j]])
      {
        if j >= |head| {
          var q := rs[j - |head|];
          assert ps[j] == q + 1;
          assert ts[j] == Tokens(rest)[j - |head|] == Strip(rest[q]);
          assert pieces[q + 1] == rest[q];
        }
      }
    }
  }

  /** The parsed IDs correspond one to one, in order, to the comma-separated
      pieces that do not strip to nothing: the pieces at KeptPositions, which
      are exactly those positions, ascending. Parsing succeeds exactly when
      every such piece, stripped, is a decimal literal, and the i-th ID is the
      value of the i-th such piece. */
  lemma ParseUserIdsCorrect(raw: string)
    ensures forall j :: 0 <= j < |KeptPositions(Split(raw, ','))| ==>
      KeptPositions(Split(raw, ','))[j] < |Split(raw, ',')| &&
      Strip(Split(raw, ',')[KeptPositions(Split(raw, ','))[j]]) != []
    ensures forall p :: 0 <= p < |Split(raw, ',')| && Strip(Split(raw, ',')[p]) != [] ==>
      p in KeptPositions(Split(raw, ','))
    ensures forall j, j' :: 0 <= j < j' < |KeptPositions(Split(raw, ','))| ==>
      KeptPositions(Split(raw, ','))[j] < KeptPositions(Split(raw, ','))[j']
    ensures ParseUserIds(raw).Ok? <==>
      forall j :: 0 <= j < |KeptPositions(Split(raw, ','))| ==>
        ParseDecimal(Strip(Split(raw, ',')[KeptPositions(Split(raw, ','))[j]])).Some?
    ensures ParseUserIds(raw).Ok? ==>
      |ParseUserIds(raw).value| == |KeptPositions(Split(raw, ','))| &&
      forall j :: 0 <= j < |KeptPositions(Split(raw, ','))| ==>
        ParseDecimal(Strip(Split(raw, ',')[KeptPositions(Split(raw, ','))[j]])) == Some(ParseUserIds(raw).value[j])
  {
    var pieces := Split(raw, ',');
    var ts := Tokens(pieces);
    assert ParseUserIds(raw) == ConvertTokens(ts);
    KeptPositionsSound(pieces);
    KeptPositionsComplete(pieces);
    KeptPositionsAscending(pieces);
    TokensAtPositions(pieces);
    ConvertTokensOkIff(ts);
    if ConvertTokens(ts).Ok? {
      ConvertTokensValues(ts);
    }
  }

  /** Pieces that strip to nothing give no token. */
  lemma {:induction false} BlankPiecesGiveNoTokens(pieces: seq<string>)
    requires forall i :: 0 <= i < |pieces| ==> AllSpace(pieces[i])
    ensures Tokens(pieces) == []
    decreases |pieces|
  {
    if pieces != [] {
      StripEmptyIff(pieces[0]);
      BlankPiecesGiveNoTokens(pieces[1..]);
    }
  }

  /** A string of only commas and whitespace splits into blank pieces. */
  lemma {:induction false} SplitSeparatorsOnly(s: string)
    requires forall i :: 0 <= i < |s| ==> s[i] == ',' || IsSpace(s[i])
    ensures forall i :: 0 <= i < |Split(s, ',')| ==> AllSpace(Split(s, ',')[i])
    decreases |s|
  {
    if s != [] {
      SplitSeparatorsOnly(s[1..]);
      var rest := Split(s[1..], ',');
      if s[0] != ',' {
        assert AllSpace([s[0]] + rest[0]);
      }
    }
  }

  /** A user list holding a single literal longer than `int()`'s digit cap
      fails, naming that literal. */
  lemma OverCapIdRefused(s: string)
    requires AllDigits(s) && |s| > MaxStrDigits
    ensures ParseUserIds(s) == Err(InvalidUserId(s))
  {
    assert ',' !in s;
    SplitNoSeparator(s, ',');
    DigitsAreStripped(s);
    assert Tokens([s]) == [s];
  }

  /** A user list made only of commas and whitespace parses to no users,
      without raising. */
  lemma OnlySeparatorsGiveNoUsers(raw: string)
    requires forall i :: 0 <= i < |raw| ==> raw[i] == ',' || IsSpace(raw[i])
    ensures ParseUserIds(raw) == Ok([])
  {
    SplitSeparatorsOnly(raw);
    BlankPiecesGiveNoTokens(Split(raw, ','));
  }

  /** An empty piece between two IDs gives no entry. */
  lemma EmptyPieceBetweenIds()
    ensures ParseUserIds("1,,2") == Ok([1, 2])
  {
    var e: string := [];
    var one, two: string := "1", "2";
    var s2: string := ",2";
    var s3: string := ",,2";
    var s: string := "1,,2";
    assert s[0] == '1' && s[1..] == s3 && [s[0]] + e == one;
    assert s3[0] == ',' && s3[1..] == s2;
    assert s2[0] == ',' && s2[1..] == two;
    assert two[0] == '2' && two[1..] == e && [two[0]] + e == two;
    assert Split(e, ',') == [e];
    assert Split(two, ',') == [two];
    assert Split(s2, ',') == [e, two];
    assert Split(s3, ',') == [e, e, two];
    var pieces := Split(s, ',');
    assert pieces == [one, e, two];
    assert Strip(one) == one && Strip(e) == e && Strip(two) == two;
    assert pieces[1..] == [e, two] && pieces[1..][1..] == [two] && pieces[1..][1..][1..] == [];
    assert Tokens(pieces) == [one, two];
    assert ParseDecimal(one) == Some(1) && ParseDecimal(two) == Some(2);
    assert [one, two][1..] == [two] && [two][1..] == [];
    var none: seq<nat> := [];
    assert ConvertTokens([]) == Ok(none);
    assert ConvertTokens([two]) == Ok([2] + none);
    assert ConvertTokens([one, two]) == Ok([1] + ([2] + none));
    assert [1] + ([2] + none) == [1, 2];
  }

  /** A digit with a space on either side strips to the digit. */
  lemma StripSpacedDigit(d: char)
    requires IsDigit(d)
    ensures Strip([' ', d, ' ']) == [d]
  {
    var p: string := [' ', d, ' '];
    var q: string := [d, ' '];
    var r: string := [d];
    assert !IsSpace(d);
    assert p[1..] == q && q[..1] == r;
    assert TrimStart(q) == q;
    assert TrimStart(p) == q;
    assert TrimEnd(r) == r;
    assert TrimEnd(q) == r;
  }

  /** Whitespace around an ID is stripped, and the ID is kept. */
  lemma SpacedIdsKept()
    ensures ParseUserIds(" 1 , 2 ") == Ok([1, 2])
  {
    var a, b: string := " 1 ", " 2 ";
    var one, two: string := "1", "2";
    assert Join([a, b], ',') == " 1 , 2 ";
    SplitJoin([a, b], ',');
    StripSpacedDigit('1');
    StripSpacedDigit('2');
    assert [a, b][1..] == [b] && [b][1..] == [];
    assert a == [' ', '1', ' '] && b == [' ', '2', ' '];
    assert one == ['1'] && two == ['2'];
    assert Strip(a) == one && Strip(b) == two;
    assert Tokens([b]) == [two] + Tokens([]);
    assert Tokens([a, b]) == [one] + Tokens([b]);
    assert Tokens([a, b]) == [one, two];
    assert [one, two][1..] == [two] && [two][1..] == [];
    var none: seq<nat> := [];
    assert ConvertTokens([two]) == Ok([2] + none);
    assert ConvertTokens([one, two]) == Ok([1] + ([2] + none));
    assert [1] + ([2] + none) == [1, 2];
  }

  /** A piece of blanks only gives no entry. */
  lemma BlankPieceOnly()
    ensures ParseUserIds(" , ") == Ok([])
  {
    OnlySeparatorsGiveNoUsers(" , ");
  }

  /** The user list written the way the configuration expects it. */
  function Render(ids: seq<nat>): string {
    Join(Shows(ids), ',')
  }

  function Shows(ids: seq<nat>): (ss: seq<string>)
    ensures |ss| == |ids|
    ensures forall i :: 0 <= i < |ss| ==> ss[i] == ShowDecimal(ids[i])
  {
    if ids == [] then [] else [ShowDecimal(ids[0])] + Shows(ids[1..])
  }

  /** A literal of digits is already stripped. */
  lemma DigitsAreStripped(s: string)
    requires s != [] && AllDigits(s)
    ensures Strip(s) == s
  {
    assert !IsSpace(s[0]) && TrimStart(s) == s;
    assert !IsSpace(s[|s| - 1]);
  }

  lemma {:induction false} ConvertShows(ids: seq<nat>)
    requires forall i :: 0 <= i < |ids| ==> |ShowDecimal(ids[i])| <= MaxStrDigits
    ensures ConvertTokens(Tokens(Shows(ids))) == Ok(ids)
    decreases |ids|
  {
    if ids != [] {
      ConvertShows(ids[1..]);
      DigitsAreStripped(ShowDecimal(ids[0]));
      ParseShowDecimal(ids[0]);
      assert Shows(ids)[1..] == Shows(ids[1..]);
      assert Tokens(Shows(ids)) == [ShowDecimal(ids[0])] + Tokens(Shows(ids[1..]));
      assert [ids[0]] + ids[1..] == ids;
    }
  }

  /** Writing a user list out and parsing it gives back the list, as long
      as no ID is printed with more digits than `int()` accepts. */
  lemma ParseRender(ids: seq<nat>)
    requires forall i :: 0 <= i < |ids| ==> |ShowDecimal(ids[i])| <= MaxStrDigits
    ensures ParseUserIds(Render(ids)) == Ok(ids)
  {
    var ss := Shows(ids);
    if ids == [] {
      assert Render(ids) == [];
    } else {
      forall i | 0 <= i < |ss| ensures ',' !in ss[i] {
        assert AllDigits(ss[i]);
      }
      SplitJoin(ss, ',');
    }
    ConvertShows(ids);
  }

  /** The `__main__` block up to building the bot: a missing or empty token
      raises, then a missing or empty user list, then a piece that is not an
      integer; otherwise the bot gets the token and the parsed users. */
  function LoadConfig(token: Option<string>, userIds: Option<string>): (r: Result<BroadcastBot, ConfigError>)
    ensures r == Err(MissingToken) <==> token.GetOr([]) == []
    ensures token.GetOr([]) != [] && userIds.GetOr([]) == [] ==> r == Err(MissingUserIds)
    ensures r.Ok? <==> token.GetOr([]) != [] && userIds.GetOr([]) != [] && ParseUserIds(userIds.GetOr([])).Ok?
    ensures token.GetOr([]) != [] && userIds.GetOr([]) != [] && ParseUserIds(userIds.GetOr([])).Err? ==>
      r == Err(ParseUserIds(userIds.GetOr([])).error) && r.error.InvalidUserId?
    ensures r.Ok? ==> (r.value.token == token.value && r.value.token != [] &&
      ParseUserIds(userIds.value) == Ok(r.value.userIds))
  {
    var tok := token.GetOr([]);
    var raw := userIds.GetOr([]);
    if tok == [] then Err(MissingToken)
    else if raw == [] then Err(MissingUserIds)
    else match ParseUserIds(raw)
      case Err(e) => Err(e)
      case Ok(ids) => Ok(BroadcastBot(tok, ids))
  }

  /** A user list of separators only passes the emptiness check and gives a
      bot with no users. */
  lemma SeparatorsOnlyBot(token: string, raw: string)
    requires token != [] && raw != []
    requires forall i :: 0 <= i < |raw| ==> raw[i] == ',' || IsSpace(raw[i])
    ensures LoadConfig(Some(token), Some(raw)) == Ok(BroadcastBot(token, []))
  {
    OnlySeparatorsGiveNoUsers(raw);
  }
}
