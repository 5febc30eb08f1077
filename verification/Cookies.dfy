/** The cookie string parser, section 4.2.1 of RFC 6265, and the grammar it accepts. */
module Cookies {
  import opened Text
  import opened MessageHeader

  datatype ErrorCode = NoError | EmptyKey | InvalidKey | DuplicatedKey | KeyIncomplete | SingleSpaceExpected

  datatype Pair = Pair(key: string, value: string)

  type Store = map<string, string>

  datatype State = InKey | InValue | ExpectOneWhitespace

  /** Everything the loop keeps: its state, the text it has read, the pending key, the store. */
  datatype Machine = Machine(state: State, buffer: string, key: string, values: Store)

  function Start(values: Store): Machine {
    Machine(InKey, "", "", values)
  }

  datatype StepResult = Continue(next: Machine) | Stop(values: Store, ec: ErrorCode)

  function Step(m: Machine, c: char): StepResult {
    match m.state
    case InKey =>
      if c != '=' then Continue(m.(buffer := m.buffer + [c]))
      else if m.buffer == "" then Stop(m.values, EmptyKey)
      else if !IsToken(m.buffer) then Stop(m.values, InvalidKey)
      else Continue(Machine(InValue, "", m.buffer, m.values))
    case InValue =>
      if c != ';' then Continue(m.(buffer := m.buffer + [c]))
      else if m.key in m.values then Stop(m.values, DuplicatedKey)
      else Continue(Machine(ExpectOneWhitespace, "", "", m.values[m.key := m.buffer]))
    case ExpectOneWhitespace =>
      if c == ' ' then Continue(m.(state := InKey)) else Stop(m.values, SingleSpaceExpected)
  }

  /** At the end of the input: whatever is in the buffer belongs to the pending key, if any. */
  function Finish(m: Machine): (Store, ErrorCode) {
    if m.key == "" then (m.values, KeyIncomplete)
    else if m.key in m.values then (m.values, DuplicatedKey)
    else (m.values[m.key := m.buffer], NoError)
  }

  datatype Result = Result(consumed: nat, values: Store, ec: ErrorCode) {
    function After(n: nat): Result { this.(consumed := consumed + n) }
  }

  function Run(m: Machine, s: string): Result
    decreases s
  {
    if s == [] then Result(0, Finish(m).0, Finish(m).1)
    else match Step(m, s[0])
         case Stop(values, ec) => Result(1, values, ec)
         case Continue(n) => Run(n, s[1..]).After(1)
  }

  method ParseCookieString(s: string, store: Store) returns (values: Store, consumed: nat, ec: ErrorCode)
    ensures Result(consumed, values, ec) == Run(Start(store), s)
  {
    values, consumed := store, 0;
    var buffer, key, currentState := "", "", InKey;
    while true
      invariant consumed <= |s|
      invariant Run(Start(store), s) == Run(Machine(currentState, buffer, key, values), s[consumed..]).After(consumed)
      decreases |s| - consumed
    {
      if consumed == |s| {
        if key == "" { return values, consumed, KeyIncomplete; }
        if key in values { return values, consumed, DuplicatedKey; }
        return values[key := buffer], consumed, NoError;
      }
      var c := s[consumed];
      assert s[consumed..][0] == c && s[consumed..][1..] == s[consumed + 1..];
      consumed := consumed + 1;
      match currentState
      case InKey =>
        if c == '=' {
          if buffer == "" { return values, consumed, EmptyKey; }
          if !IsToken(buffer) { return values, consumed, InvalidKey; }
          key, buffer, currentState := buffer, "", InValue;
        } else {
          buffer := buffer + [c];
        }
      case InValue =>
        if c == ';' {
          if key in values { return values, consumed, DuplicatedKey; }
          values := values[key := buffer];
          key, buffer, currentState := "", "", ExpectOneWhitespace;
        } else {
          buffer := buffer + [c];
        }
      case ExpectOneWhitespace =>
        if c != ' ' { return values, consumed, SingleSpaceExpected; }
        currentState := InKey;
    }
  }

  // ---- The printer and the grammar ----

  /** The pairs, each as key=value, joined by a semicolon and a blank. */
  function PrintPairs(pairs: seq<Pair>): string
    requires pairs != []
    decreases pairs, 0
  {
    pairs[0].key + ("=" + (pairs[0].value + PrintRest(pairs[1..])))
  }

  /** What is printed after the first pair. */
  function PrintRest(pairs: seq<Pair>): string
    decreases pairs, 1
  {
    if pairs == [] then "" else "; " + PrintPairs(pairs)
  }

  predicate ValidPair(p: Pair) {
    IsToken(p.key) && ';' !in p.value
  }

  function AddPairs(values: Store, pairs: seq<Pair>): Store
    decreases pairs
  {
    if pairs == [] then values else AddPairs(values[pairs[0].key := pairs[0].value], pairs[1..])
  }

  /** Valid pairs whose keys are distinct from each other and from those of the store. */
  predicate Acceptable(values: Store, pairs: seq<Pair>)
    decreases pairs
  {
    pairs == [] ||
    (ValidPair(pairs[0]) && pairs[0].key !in values &&
     Acceptable(values[pairs[0].key := pairs[0].value], pairs[1..]))
  }

  lemma {:induction false} AcceptableMeaning(values: Store, pairs: seq<Pair>)
    ensures Acceptable(values, pairs) <==>
            (forall i :: 0 <= i < |pairs| ==> ValidPair(pairs[i]) && pairs[i].key !in values) &&
            (forall i, j :: 0 <= i < j < |pairs| ==> pairs[i].key != pairs[j].key)
    decreases pairs
  {
    if pairs != [] {
      var next, rest := values[pairs[0].key := pairs[0].value], pairs[1..];
      AcceptableMeaning(next, rest);
      assert forall i :: 0 < i < |pairs| ==> pairs[i] == rest[i - 1];
      assert forall i :: 0 <= i < |rest| ==> rest[i] == pairs[i + 1];
    }
  }

  lemma {:induction false} AddsExactly(values: Store, pairs: seq<Pair>)
    requires Acceptable(values, pairs)
    ensures AddPairs(values, pairs).Keys == values.Keys + (set p | p in pairs :: p.key)
    ensures forall k :: k in values ==> AddPairs(values, pairs)[k] == values[k]
    ensures forall i :: 0 <= i < |pairs| ==> AddPairs(values, pairs)[pairs[i].key] == pairs[i].value
    decreases pairs
  {
    hide ValidPair;
    if pairs != [] {
      var p, rest := pairs[0], pairs[1..];
      var next := values[p.key := p.value];
      AddsExactly(next, rest);
      KeysOfAll(pairs);
      assert next[p.key] == p.value;
      forall i | 0 < i < |pairs| ensures AddPairs(values, pairs)[pairs[i].key] == pairs[i].value {
        assert pairs[i] == rest[i - 1];
      }
    }
  }

  lemma KeysOfAll(pairs: seq<Pair>)
    requires pairs != []
    ensures (set q | q in pairs :: q.key) == {pairs[0].key} + (set q | q in pairs[1..] :: q.key)
  {
    assert forall q :: q in pairs <==> q == pairs[0] || q in pairs[1..];
  }

  // ---- One pair at a time ----

  /** The machine reads octets into its buffer up to the delimiter `d` of its state. */
  lemma {:induction false} Buffers(m: Machine, s: string, i: nat)
    requires m.state == InKey || m.state == InValue
    requires i <= |s| && forall k :: 0 <= k < i ==> s[k] != (if m.state == InKey then '=' else ';')
    ensures Run(m, s) == Run(m.(buffer := m.buffer + s[..i]), s[i..]).After(i)
    decreases i
  {
    if i == 0 {
      assert m.buffer + s[..0] == m.buffer;
    } else {
      Buffers(m.(buffer := m.buffer + [s[0]]), s[1..], i - 1);
      assert m.buffer + [s[0]] + s[1..][..i - 1] == m.buffer + s[..i];
    }
  }

  /** The part of the parse that a key takes. */
  lemma ReadsKey(values: Store, s: string)
    ensures var i := Index(s, '=');
            Run(Start(values), s) ==
            if i == |s| then Result(|s|, values, KeyIncomplete)
            else if i == 0 then Result(1, values, EmptyKey)
            else if !IsToken(s[..i]) then Result(i + 1, values, InvalidKey)
            else Run(Machine(InValue, "", s[..i], values), s[i + 1..]).After(i + 1)
  {
    var i := Index(s, '=');
    IndexIsFirst(s, '=');
    Buffers(Start(values), s, i);
    Neutral(s[..i]);
    if i < |s| { DropTwice(s, i, 1); }
  }

  /** What follows a value: the end, or a semicolon, a blank and the next pair. */
  function AfterValue(values: Store, s: string): Result {
    if s == [] then Result(0, values, NoError)
    else if |s| == 1 then Result(1, values, KeyIncomplete)
    else if s[1] != ' ' then Result(2, values, SingleSpaceExpected)
    else Run(Start(values), s[2..]).After(2)
  }

  /** The part of the parse that a value takes, with its separator. */
  lemma ReadsValue(values: Store, key: string, s: string)
    requires key != ""
    ensures var i := Index(s, ';');
            Run(Machine(InValue, "", key, values), s) ==
            if key in values then Result(if i == |s| then |s| else i + 1, values, DuplicatedKey)
            else AfterValue(values[key := s[..i]], s[i..]).After(i)
  {
    hide Index;
    var i := Index(s, ';');
    IndexIsFirst(s, ';');
    Buffers(Machine(InValue, "", key, values), s, i);
    Neutral(s[..i]);
    ReadsSeparator(values, key, s[..i], s[i..]);
  }

  lemma ReadsSeparator(values: Store, key: string, value: string, s: string)
    requires key != "" && (s != [] ==> s[0] == ';')
    ensures Run(Machine(InValue, value, key, values), s) ==
            if key in values then Result(if s == [] then 0 else 1, values, DuplicatedKey)
            else AfterValue(values[key := value], s)
  {
    if |s| > 1 {
      assert s[1..][0] == s[1];
      DropTwice(s, 1, 1);
    }
  }

  /** A pair with a fresh token key, whatever comes after its value. */
  lemma ReadsPair(values: Store, p: Pair, after: string)
    requires ValidPair(p) && p.key !in values
    requires after != [] ==> after[0] == ';'
    ensures Run(Start(values), p.key + ("=" + (p.value + after))) ==
            AfterValue(values[p.key := p.value], after).After(|p.key| + 1 + |p.value|)
  {
    hide Run, Index, AfterValue;
    var t := p.value + after;
    assert forall i :: 0 <= i < |p.key| ==> IsTokenChar(p.key[i]);
    IndexOfFirst(p.key, '=', t);
    ReadsKey(values, p.key + ("=" + t));
    ReadsValue(values, p.key, t);
    EndOfValue(p.value, after);
  }

  lemma EndOfValue(value: string, after: string)
    requires ';' !in value && (after != [] ==> after[0] == ';')
    ensures var t := value + after;
            Index(t, ';') == |value| && t[..|value|] == value && t[|value|..] == after
  {
    if after == [] {
      Neutral(value);
      NoIndex(value, ';');
    } else {
      assert after == ";" + after[1..];
      IndexOfFirst(value, ';', after[1..]);
    }
  }

  lemma {:induction false} NoIndex(s: string, c: char)
    requires c !in s
    ensures Index(s, c) == |s|
  {
    if s != [] { NoIndex(s[1..], c); }
  }

  // ---- Exactness ----

  /** Every acceptable list of pairs, printed, is read back: no error, exactly those pairs. */
  lemma {:induction false} ParsesPrinted(values: Store, pairs: seq<Pair>)
    requires pairs != [] && Acceptable(values, pairs)
    ensures Run(Start(values), PrintPairs(pairs)) == Result(|PrintPairs(pairs)|, AddPairs(values, pairs), NoError)
    decreases pairs
  {
    hide Run;
    var p, rest := pairs[0], pairs[1..];
    ReadsPair(values, p, PrintRest(rest));
    if rest != [] {
      ParsesPrinted(values[p.key := p.value], rest);
      assert PrintRest(rest)[2..] == PrintPairs(rest);
    }
  }

  /** A string that does not fail in its first pair has one, and goes on after it. */
  lemma FirstPair(values: Store, s: string) returns (p: Pair, after: string)
    ensures var r := Run(Start(values), s);
            if r.values == values && r.ec != NoError then true
            else ValidPair(p) && p.key !in values && s == p.key + ("=" + (p.value + after)) &&
                 (after != [] ==> after[0] == ';') && |after| < |s|
  {
    hide Run, Index, AfterValue;
    ReadsKey(values, s);
    var i := Index(s, '=');
    p, after := Pair("", ""), "";
    if 0 < i < |s| && IsToken(s[..i]) {
      var t := s[i + 1..];
      ReadsValue(values, s[..i], t);
      var j := Index(t, ';');
      IndexIsFirst(t, ';');
      CutAt(s, i);
      SplitAt(t, j);
      p, after := Pair(s[..i], t[..j]), t[j..];
    }
  }

  /** Whatever is read without error is the print of an acceptable list of pairs. */
  lemma {:induction false} Recover(values: Store, s: string) returns (pairs: seq<Pair>)
    requires Run(Start(values), s).ec == NoError
    ensures pairs != [] && Acceptable(values, pairs) && s == PrintPairs(pairs)
    decreases |s|
  {
    hide Run;
    var p, after := FirstPair(values, s);
    ReadsPair(values, p, after);
    var rest: seq<Pair> := [];
    if after != [] {
      rest := Recover(values[p.key := p.value], after[2..]);
      assert after == "; " + PrintPairs(rest);
    }
    pairs := [p] + rest;
    assert pairs[1..] == rest;
  }

  /** `s` is the print of `pairs`, and they can all be added to the store. */
  ghost predicate Prints(values: Store, pairs: seq<Pair>, s: string) {
    pairs != [] && Acceptable(values, pairs) && s == PrintPairs(pairs)
  }

  /** No error is reported exactly for the prints of acceptable lists, whose pairs are then added. */
  lemma {:induction false} AcceptsExactly(values: Store, s: string)
    ensures Run(Start(values), s).ec == NoError <==> exists pairs :: Prints(values, pairs, s)
    ensures forall pairs :: Prints(values, pairs, s) ==>
              Run(Start(values), s) == Result(|s|, AddPairs(values, pairs), NoError)
  {
    if Run(Start(values), s).ec == NoError {
      var pairs := Recover(values, s);
      assert Prints(values, pairs, s);
    }
    forall pairs | Prints(values, pairs, s) ensures Run(Start(values), s) == Result(|s|, AddPairs(values, pairs), NoError) {
      ParsesPrinted(values, pairs);
    }
  }

  /** `pairs` are printed at the start of `s`, each with a semicolon after it. */
  ghost predicate CompletedIn(values: Store, pairs: seq<Pair>, s: string) {
    Acceptable(values, pairs) && (pairs == [] || PrintPairs(pairs) + ";" <= s)
  }

  /**
   On failure the store holds exactly the pairs completed before the failing one: `pairs` are
   in it, and every list of pairs that the input completes is a start of `pairs`.
   */
  lemma {:induction false} FailureKeepsCompleted(values: Store, s: string) returns (pairs: seq<Pair>)
    requires Run(Start(values), s).ec != NoError
    ensures CompletedIn(values, pairs, s) && Run(Start(values), s).values == AddPairs(values, pairs)
    ensures forall more :: CompletedIn(values, more, s) ==> more <= pairs
    decreases |s|
  {
    hide Run, CompletedIn;
    NothingCompleted(values, s);
    pairs := [];
    if Run(Start(values), s).values != values {
      var p, after := FirstPair(values, s);
      ReadsPair(values, p, after);
      var next := values[p.key := p.value];
      var rest: seq<Pair> := [];
      if |after| > 1 && after[1] == ' ' { rest := FailureKeepsCompleted(next, after[2..]); }
      CompletedWith(values, p, rest, after);
      pairs := [p] + rest;
      forall more | CompletedIn(values, more, s) ensures more <= pairs {
        if more != [] {
          CompletedRest(values, p, after, more);
          assert more == [p] + more[1..];
        }
      }
    } else {
      forall more | CompletedIn(values, more, s) ensures more == [] {
        if more != [] { CompletedIsStored(values, more, s); }
      }
    }
  }

  lemma NothingCompleted(values: Store, s: string)
    ensures CompletedIn(values, [], s)
  {
  }

  lemma CompletedWith(values: Store, p: Pair, rest: seq<Pair>, after: string)
    requires ValidPair(p) && p.key !in values && after != [] && after[0] == ';'
    requires rest != [] ==> |after| > 1 && after[1] == ' ' && CompletedIn(values[p.key := p.value], rest, after[2..])
    ensures CompletedIn(values, [p] + rest, p.key + ("=" + (p.value + after)))
    ensures AddPairs(values, [p] + rest) == AddPairs(values[p.key := p.value], rest)
  {
    var pairs := [p] + rest;
    assert pairs[1..] == rest;
    CompletedPrefix(pairs, after);
  }

  /** A completed list of pairs starts with the first pair of the input. */
  lemma CompletedRest(values: Store, p: Pair, after: string, more: seq<Pair>)
    requires ValidPair(p) && (after != [] ==> after[0] == ';') && more != []
    requires CompletedIn(values, more, p.key + ("=" + (p.value + after)))
    ensures more[0] == p
    ensures |more| > 1 ==> |after| > 1 && after[1] == ' ' && CompletedIn(values[p.key := p.value], more[1..], after[2..])
  {
    var rest := CompletedStart(more, p.key + ("=" + (p.value + after)));
    SamePair(p, after, more[0], rest);
  }

  lemma CompletedStart(more: seq<Pair>, s: string) returns (after: string)
    requires more != [] && PrintPairs(more) + ";" <= s
    ensures s == more[0].key + ("=" + (more[0].value + after)) && after != [] && after[0] == ';'
    ensures |more| > 1 ==> |after| > 1 && after[1] == ' ' && PrintPairs(more[1..]) + ";" <= after[2..]
  {
    var p, rest := more[0], PrintRest(more[1..]);
    var text := PrintPairs(more) + ";";
    after := rest + (";" + s[|text|..]);
    assert s == text + s[|text|..];
    assert s == p.key + ("=" + (p.value + after));
    if |more| > 1 {
      var tail := PrintPairs(more[1..]);
      assert rest == "; " + tail;
      assert after == "; " + (tail + (";" + s[|text|..]));
      assert after[2..] == tail + ";" + s[|text|..];
    }
  }

  /** The first pair of a text, and what follows it, are determined by the text. */
  lemma SamePair(p: Pair, a: string, q: Pair, b: string)
    requires ValidPair(p) && ValidPair(q) && (a != [] ==> a[0] == ';') && (b != [] ==> b[0] == ';')
    requires p.key + ("=" + (p.value + a)) == q.key + ("=" + (q.value + b))
    ensures p == q && a == b
  {
    hide Index;
    assert forall i :: 0 <= i < |p.key| ==> IsTokenChar(p.key[i]);
    assert forall i :: 0 <= i < |q.key| ==> IsTokenChar(q.key[i]);
    IndexOfFirst(p.key, '=', p.value + a);
    IndexOfFirst(q.key, '=', q.value + b);
    EndOfValue(p.value, a);
    EndOfValue(q.value, b);
  }

  /** The first pair that is completed is stored, whatever happens after it. */
  lemma CompletedIsStored(values: Store, more: seq<Pair>, s: string)
    requires CompletedIn(values, more, s) && more != []
    ensures more[0].key !in values && more[0].key in Run(Start(values), s).values
  {
    hide Run;
    var after := CompletedStart(more, s);
    ReadsPair(values, more[0], after);
    if |after| > 1 { StoreGrows(Start(values[more[0].key := more[0].value]), after[2..]); }
  }

  lemma {:induction false} StoreGrows(m: Machine, s: string)
    ensures m.values.Keys <= Run(m, s).values.Keys
    decreases s
  {
    if s != [] && Step(m, s[0]).Continue? { StoreGrows(Step(m, s[0]).next, s[1..]); }
  }

  lemma CompletedPrefix(pairs: seq<Pair>, after: string)
    requires pairs != [] && after != [] && after[0] == ';'
    requires |pairs| > 1 ==> |after| > 1 && after[1] == ' ' && PrintPairs(pairs[1..]) + ";" <= after[2..]
    ensures PrintPairs(pairs) + ";" <= pairs[0].key + ("=" + (pairs[0].value + after))
  {
    var p, rest := pairs[0], pairs[1..];
    RestPrefix(rest, after);
    PairPrefix(p.key, p.value, PrintRest(rest), after);
  }

  lemma RestPrefix(rest: seq<Pair>, after: string)
    requires after != [] && after[0] == ';'
    requires rest != [] ==> |after| > 1 && after[1] == ' ' && PrintPairs(rest) + ";" <= after[2..]
    ensures PrintRest(rest) + ";" <= after
  {
    hide PrintPairs;
    if rest != [] {
      var text := PrintPairs(rest) + ";";
      assert after == "; " + after[2..];
      assert "; " + text <= "; " + after[2..];
      assert "; " + PrintPairs(rest) + ";" == "; " + text;
    }
  }

  lemma PairPrefix(key: string, value: string, rest: string, after: string)
    requires rest + ";" <= after
    ensures key + ("=" + (value + rest)) + ";" <= key + ("=" + (value + after))
  {
    assert key + ("=" + (value + rest)) + ";" == key + ("=" + (value + (rest + ";")));
    assert value + (rest + ";") <= value + after;
    assert "=" + (value + (rest + ";")) <= "=" + (value + after);
  }
}
