/** Market data snapshots: printed by the server, read field by field by the client. */
module MarketFeed {
  import opened FixedWidth
  import opened Orders
  import opened Decimals
  import opened Fields
  import opened OrderTexts

  datatype MarketDataSnapshot = MarketDataSnapshot(bestBid: u64, bestAsk: u64, bidVolume: u64, askVolume: u64)

  /** MarketDataSnapshot::serialise. */
  function Serialise(m: MarketDataSnapshot): string {
    Decimal(m.bestBid) + "," + Decimal(m.bestAsk) + "," + Decimal(m.bidVolume) + "," + Decimal(m.askVolume)
  }

  function WithField(m: MarketDataSnapshot, k: nat, v: u64): MarketDataSnapshot {
    match k
    case 0 => m.(bestBid := v)
    case 1 => m.(bestAsk := v)
    case 2 => m.(bidVolume := v)
    case _ => m.(askVolume := v)
  }

  /** Overwrite fields k to 3 one after the other, up to the first one that does not parse. */
  function ReadFrom(m: MarketDataSnapshot, ss: Stream, token: string, k: nat): (MarketDataSnapshot, Result<()>)
    decreases 4 - k
  {
    if k >= 4 then (m, Success(()))
    else
      var (ss', token', _) := GetLine(ss, token);
      match ParseU64(token')
      case Failure(e) => (m, Failure(e))
      case Success(v) => ReadFrom(WithField(m, k, v), ss', token', k + 1)
  }

  class MarketData {
    var snapshot: MarketDataSnapshot

    constructor ()
      ensures snapshot == MarketDataSnapshot(0, 0, 0, 0)
    {
      snapshot := MarketDataSnapshot(0, 0, 0, 0);
    }

    method Update(m: MarketDataSnapshot)
      modifies this
      ensures snapshot == m
    {
      snapshot := m;
    }

    method Get() returns (m: MarketDataSnapshot)
      ensures m == snapshot
    {
      m := snapshot;
    }

    /** Whatever was stored before, the printed form of a snapshot stores that snapshot. */
    method Deserialise(text: string) returns (r: Result<()>)
      modifies this
      ensures (snapshot, r) == ReadFrom(old(snapshot), Stream(text, true), "", 0)
      ensures forall m :: text == Serialise(m) ==> snapshot == m && r == Success(())
    {
      hide GetLine, ParseU64, Serialise;
      forall m | text == Serialise(m) {
        SnapshotRoundTrip(snapshot, m);
      }
      var (ss1, token1, ok1) := GetLine(Stream(text, true), "");
      var bestBid :- ParseU64(token1);
      snapshot := snapshot.(bestBid := bestBid);
      var (ss2, token2, ok2) := GetLine(ss1, token1);
      var bestAsk :- ParseU64(token2);
      snapshot := snapshot.(bestAsk := bestAsk);
      var (ss3, token3, ok3) := GetLine(ss2, token2);
      var bidVolume :- ParseU64(token3);
      snapshot := snapshot.(bidVolume := bidVolume);
      var (ss4, token4, ok4) := GetLine(ss3, token3);
      var askVolume :- ParseU64(token4);
      snapshot := snapshot.(askVolume := askVolume);
      return Success(());
    }
  }

  lemma GetLineOf(p: string, rest: string, token: string)
    requires Commas(p) == 0
    ensures GetLine(Stream(p + "," + rest, true), token) == (Stream(rest, true), p, true)
    ensures GetLine(Stream(p, true), token) == (Stream("", false), p, p != "")
  {
    var t := p + "," + rest;
    NoCommas(p);
    assert t[|p|] == ',' && BeforeComma(t) == |p|;
    assert t[..|p|] == p && t[|p| + 1..] == rest;
  }

  lemma ReadNumber(m: MarketDataSnapshot, n: u64, rest: string, token: string, k: nat)
    requires k < 4
    ensures ReadFrom(m, Stream(Decimal(n) + "," + rest, true), token, k)
            == ReadFrom(WithField(m, k, n), Stream(rest, true), Decimal(n), k + 1)
    ensures ReadFrom(m, Stream(Decimal(n), true), token, k)
            == ReadFrom(WithField(m, k, n), Stream("", false), Decimal(n), k + 1)
  {
    hide GetLine, ParseU64, Decimal;
    NumbersHaveNoCommas(n);
    DecimalRoundTrip(n);
    GetLineOf(Decimal(n), rest, token);
  }

  /** Every snapshot survives being printed and read into any other. */
  lemma SnapshotRoundTrip(before: MarketDataSnapshot, m: MarketDataSnapshot)
    ensures ReadFrom(before, Stream(Serialise(m), true), "", 0) == (m, Success(()))
  {
    hide Decimal, GetLine, ParseU64;
    var t3 := Decimal(m.askVolume);
    var t2 := Decimal(m.bidVolume) + "," + t3;
    var t1 := Decimal(m.bestAsk) + "," + t2;
    assert Serialise(m) == Decimal(m.bestBid) + "," + t1;
    var m1 := before.(bestBid := m.bestBid);
    var m2 := m1.(bestAsk := m.bestAsk);
    var m3 := m2.(bidVolume := m.bidVolume);
    ReadNumber(before, m.bestBid, t1, "", 0);
    ReadNumber(m1, m.bestAsk, t2, Decimal(m.bestBid), 1);
    ReadNumber(m2, m.bidVolume, t3, Decimal(m.bestAsk), 2);
    ReadNumber(m3, m.askVolume, "", Decimal(m.bidVolume), 3);
  }

  /** The printed form of a snapshot: four numbers in order, three commas, and a digit at the end. */
  lemma SnapshotText(m: MarketDataSnapshot)
    ensures var text := Serialise(m);
            && Split(text) == [Decimal(m.bestBid), Decimal(m.bestAsk), Decimal(m.bidVolume), Decimal(m.askVolume)]
            && Commas(text) == 3 && text != "" && IsDigit(text[|text| - 1])
            && text == Decimal(m.bestBid) + "," + Decimal(m.bestAsk) + "," + Decimal(m.bidVolume) + "," + Decimal(m.askVolume)
  {
    hide Split, Commas, Decimal;
    NumbersHaveNoCommas(m.bestBid);
    NumbersHaveNoCommas(m.bestAsk);
    NumbersHaveNoCommas(m.bidVolume);
    NumbersHaveNoCommas(m.askVolume);
    DecimalDigits(m.askVolume);
    var t3 := Decimal(m.askVolume);
    var t2 := Decimal(m.bidVolume) + "," + t3;
    var t1 := Decimal(m.bestAsk) + "," + t2;
    assert Serialise(m) == Decimal(m.bestBid) + "," + t1;
    FirstField(Decimal(m.bestBid), t1);
    FirstField(Decimal(m.bestAsk), t2);
    FirstField(Decimal(m.bidVolume), t3);
    SingleField(t3);
    var text := Serialise(m);
    assert text[|text| - 1] == t3[|t3| - 1];
    assert IsDigit(text[|text| - 1]);
    NumberOfFields(text);
  }

  lemma SingleField(p: string)
    requires Commas(p) == 0 && p != ""
    ensures Split(p) == [p]
  {
    NoCommas(p);
  }

  // ----- Reading any text

  /**
   The k-th token a client reads from a text: its k-th field; past the fields, nothing after a comma
   at the end, and otherwise the last field again, because getline leaves the token as it was.
   */
  function Token(text: string, k: nat): string {
    var parts := Split(text);
    if k < |parts| then parts[k]
    else if parts == [] || EndsWithComma(text) then ""
    else parts[|parts| - 1]
  }

  /** The token after k further getlines. */
  function NextToken(ss: Stream, token: string, k: nat): string
    decreases k
  {
    var (ss', token', _) := GetLine(ss, token);
    if k == 0 then token' else NextToken(ss', token', k - 1)
  }

  lemma {:induction false} SpentStream(rest: string, token: string, k: nat)
    ensures NextToken(Stream(rest, false), token, k) == token
  {
    if k > 0 {
      SpentStream(rest, token, k - 1);
    }
  }

  lemma {:induction false} TokensOf(text: string, token: string, k: nat)
    ensures NextToken(Stream(text, true), token, k) == Token(text, k)
  {
    hide Split, EndsWithComma, Token;
    TokenStep(text, k);
    var b := BeforeComma(text);
    if k > 0 {
      if b < |text| {
        TokensOf(text[b + 1..], text[..b], k - 1);
      } else {
        SpentStream("", text, k - 1);
      }
    }
  }

  lemma TokenStep(text: string, k: nat)
    ensures var b := BeforeComma(text);
            Token(text, k) == if b == |text| then text else if k == 0 then text[..b] else Token(text[b + 1..], k - 1)
  {
    hide Split, EndsWithComma, BeforeComma, Join;
    SplitStep(text);
    var b := BeforeComma(text);
    if b < |text| {
      SplitIsEmpty(text[b + 1..]);
      LaterToken(text, text[..b], text[b + 1..], k);
    }
  }

  lemma SplitIsEmpty(text: string)
    ensures Split(text) == [] <==> text == ""
  {
    JoinOfSplit(text);
  }

  lemma LaterToken(text: string, first: string, rest: string, k: nat)
    requires Split(text) == [first] + Split(rest)
    requires Split(rest) == [] <==> rest == ""
    requires EndsWithComma(text) <==> rest == "" || EndsWithComma(rest)
    ensures Token(text, k) == if k == 0 then first else Token(rest, k - 1)
  {
    hide Split, EndsWithComma;
  }

  /**
   What reading any text does to any stored snapshot: the fields whose tokens parse are overwritten,
   up to the first one whose token does not, and that one's error is the result.
   */
  lemma ReadAnyText(before: MarketDataSnapshot, text: string, k: nat)
    requires k <= 4 && forall j :: 0 <= j < k ==> ParseU64(Token(text, j)).Success?
    requires k < 4 ==> ParseU64(Token(text, k)).Failure?
    ensures var (m, r) := ReadFrom(before, Stream(text, true), "", 0);
            && m.bestBid == (if k > 0 then ParseU64(Token(text, 0)).value else before.bestBid)
            && m.bestAsk == (if k > 1 then ParseU64(Token(text, 1)).value else before.bestAsk)
            && m.bidVolume == (if k > 2 then ParseU64(Token(text, 2)).value else before.bidVolume)
            && m.askVolume == (if k > 3 then ParseU64(Token(text, 3)).value else before.askVolume)
            && (if k == 4 then r == Success(()) else r.Failure? && r.error == ParseU64(Token(text, k)).error)
  {
    hide GetLine, ParseU64, Token;
    var ss0 := Stream(text, true);
    var (ss1, t1, _) := GetLine(ss0, "");
    var (ss2, t2, _) := GetLine(ss1, t1);
    var (ss3, t3, _) := GetLine(ss2, t2);
    var (ss4, t4, _) := GetLine(ss3, t3);
    TokensOf(text, "", 0);
    TokensOf(text, "", 1);
    TokensOf(text, "", 2);
    TokensOf(text, "", 3);
    assert NextToken(ss0, "", 1) == NextToken(ss1, t1, 0);
    assert NextToken(ss0, "", 2) == NextToken(ss1, t1, 1) == NextToken(ss2, t2, 0);
    assert NextToken(ss0, "", 3) == NextToken(ss1, t1, 2) == NextToken(ss2, t2, 1) == NextToken(ss3, t3, 0);
    assert ReadFrom(before, ss0, "", 0) == ReadTokens(before, [t1, t2, t3, t4]);
  }

  function ReadTokens(m: MarketDataSnapshot, t: seq<string>): (MarketDataSnapshot, Result<()>)
    requires |t| == 4
  {
    if ParseU64(t[0]).Failure? then (m, Failure(ParseU64(t[0]).error))
    else
      var m1 := m.(bestBid := ParseU64(t[0]).value);
      if ParseU64(t[1]).Failure? then (m1, Failure(ParseU64(t[1]).error))
      else
        var m2 := m1.(bestAsk := ParseU64(t[1]).value);
        if ParseU64(t[2]).Failure? then (m2, Failure(ParseU64(t[2]).error))
        else
          var m3 := m2.(bidVolume := ParseU64(t[2]).value);
          if ParseU64(t[3]).Failure? then (m3, Failure(ParseU64(t[3]).error))
          else (m3.(askVolume := ParseU64(t[3]).value), Success(()))
  }
}
