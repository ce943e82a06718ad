/** Comma-separated text: std::getline with ',' as the delimiter, and the loops around it. */
module Fields {

  /** A string stream: what has not been read, and whether its end has not been hit. */
  datatype Stream = Stream(rest: string, good: bool)

  function Commas(s: string): nat {
    if s == "" then 0 else (if s[0] == ',' then 1 else 0) + Commas(s[1..])
  }

  /** The length of the text before the first comma. */
  function BeforeComma(s: string): (k: nat)
    ensures k <= |s|
    ensures k < |s| ==> s[k] == ','
    ensures forall i :: 0 <= i < k ==> s[i] != ','
  {
    if s == "" || s[0] == ',' then 0 else 1 + BeforeComma(s[1..])
  }

  /**
   std::getline(stream, token, ','): the stream after it, the token, and whether it succeeded. At
   the end of the text an empty rest is read as a failure; once the end was hit the token is
   not touched any more.
   */
  function GetLine(st: Stream, token: string): (Stream, string, bool) {
    if !st.good then (st, token, false)
    else
      var k := BeforeComma(st.rest);
      if k < |st.rest| then (Stream(st.rest[k + 1..], true), st.rest[..k], true)
      else (Stream("", false), st.rest, st.rest != "")
  }

  /** The fields of a text: an empty field after the last comma does not count. */
  function Split(s: string): seq<string> {
    if s == "" then []
    else
      var k := BeforeComma(s);
      if k < |s| then [s[..k]] + Split(s[k + 1..]) else [s]
  }

  function Join(parts: seq<string>): string {
    if parts == [] then "" else if |parts| == 1 then parts[0] else parts[0] + "," + Join(parts[1..])
  }

  /** One getline on a good stream reads one field of what is left, if there is one. */
  lemma NextField(rest: string, token: string)
    ensures var (st, part, ok) := GetLine(Stream(rest, true), token);
            && (!ok ==> !st.good)
            && (st.good ==> |st.rest| < |rest|)
            && Split(rest) == (if ok then [part] else []) + (if st.good then Split(st.rest) else [])
  {
    if rest != "" && BeforeComma(rest) == |rest| {
      assert Split(rest) == [rest] + [];
    }
  }

  /** Read fields until getline fails. */
  method ReadFields(data: string) returns (parts: seq<string>)
    ensures parts == Split(data)
  {
    hide Split, BeforeComma;
    parts := [];
    var ss := Stream(data, true);
    var part := "";
    var (next, token, ok) := GetLine(ss, part);
    ss, part := next, token;
    NextField(data, part);
    while ok
      invariant !ok ==> !ss.good
      invariant Split(data) == parts + ((if ok then [part] else []) + (if ss.good then Split(ss.rest) else []))
      decreases ss.good, |ss.rest|, ok
    {
      if ss.good {
        NextField(ss.rest, part);
      }
      parts := parts + [part];
      var (next, token, more) := GetLine(ss, part);
      ss, part, ok := next, token, more;
    }
  }

  // ----- Splitting and joining

  lemma {:induction false} CommasOfConcat(s: string, t: string)
    ensures Commas(s + t) == Commas(s) + Commas(t)
  {
    if s == "" {
      assert s + t == t;
    } else {
      assert (s + t)[1..] == s[1..] + t;
      CommasOfConcat(s[1..], t);
    }
  }

  lemma {:induction false} NoCommas(s: string)
    ensures Commas(s) == 0 <==> forall i :: 0 <= i < |s| ==> s[i] != ','
  {
    if s != "" {
      NoCommas(s[1..]);
      if Commas(s) == 0 {
        forall i | 0 <= i < |s| ensures s[i] != ',' {
          assert i > 0 ==> s[i] == s[1..][i - 1];
        }
      }
      if forall i :: 0 <= i < |s| ==> s[i] != ',' {
        assert forall i :: 0 <= i < |s| - 1 ==> s[1..][i] == s[i + 1];
      }
    }
  }

  /** One field for each comma, and one more unless the text is empty or ends with a comma. */
  lemma {:induction false} NumberOfFields(s: string)
    ensures |Split(s)| == Commas(s) + if s == "" || s[|s| - 1] == ',' then 0 else 1
  {
    if s != "" {
      var k := BeforeComma(s);
      NoCommas(s[..k]);
      if k < |s| {
        assert s == s[..k] + [','] + s[k + 1..];
        CommasOfConcat(s[..k] + [','], s[k + 1..]);
        CommasOfConcat(s[..k], [',']);
        NumberOfFields(s[k + 1..]);
      } else {
        assert s[..k] == s;
      }
    }
  }

  lemma FirstField(p: string, s: string)
    requires Commas(p) == 0
    ensures Split(p + "," + s) == [p] + Split(s)
  {
    var t := p + "," + s;
    NoCommas(p);
    assert t[|p|] == ',';
    assert BeforeComma(t) == |p|;
    assert t[..|p|] == p && t[|p| + 1..] == s;
  }

  /** Splitting undoes joining exactly when no field has a comma and the last one is not empty. */
  lemma {:induction false} SplitOfJoin(parts: seq<string>)
    requires parts != [] && forall i :: 0 <= i < |parts| ==> Commas(parts[i]) == 0
    ensures Split(Join(parts)) == parts <==> parts[|parts| - 1] != ""
  {
    hide Commas;
    var rest := parts[1..];
    if rest == [] {
      NoCommas(parts[0]);
    } else {
      SplitOfJoin(rest);
      FirstField(parts[0], Join(rest));
      assert parts == [parts[0]] + rest;
    }
  }

  lemma {:induction false} SplitHasNoCommas(s: string)
    ensures forall i :: 0 <= i < |Split(s)| ==> Commas(Split(s)[i]) == 0
  {
    if s != "" {
      var k := BeforeComma(s);
      NoCommas(s[..k]);
      if k < |s| {
        SplitHasNoCommas(s[k + 1..]);
      } else {
        assert s[..k] == s;
      }
    }
  }

  lemma SplitStep(s: string)
    ensures var k := BeforeComma(s);
            if k < |s| then
              var rest := s[k + 1..];
              && s == s[..k] + "," + rest && Split(s) == [s[..k]] + Split(rest)
              && (EndsWithComma(s) <==> rest == "" || EndsWithComma(rest))
            else !EndsWithComma(s) && Split(s) == if s == "" then [] else [s]
  {
  }

  /** Joining undoes splitting, but for a comma at the end of the text. */
  lemma {:induction false} JoinOfSplit(s: string)
    ensures Join(Split(s)) + (if EndsWithComma(s) then "," else "") == s
    ensures Split(s) == [] <==> s == ""
  {
    hide Split, EndsWithComma;
    SplitStep(s);
    var k := BeforeComma(s);
    if k < |s| {
      var rest := s[k + 1..];
      JoinOfSplit(rest);
      JoinPair(s[..k], Split(rest));
      if rest != "" {
        var tail := if EndsWithComma(rest) then "," else "";
        assert s[..k] + "," + (Join(Split(rest)) + tail) == s[..k] + "," + Join(Split(rest)) + tail;
      }
    }
  }

  predicate EndsWithComma(s: string) {
    s != "" && s[|s| - 1] == ','
  }

  lemma JoinPair(p: string, parts: seq<string>)
    ensures Join([p] + parts) == if parts == [] then p else p + "," + Join(parts)
  {
  }
}
