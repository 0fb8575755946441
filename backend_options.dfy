/** Free-form code-generator options of the ReadyToRun compilation builder.
    Each raw option is a string "name=value"; it is split at the first '=',
    and a string with no '=' or with '=' in front (an empty name) is skipped
    without any report. */
module BackendOptions {

  datatype Option<+T> = None | Some(value: T)

  /** The pair the builder stores for one accepted option. */
  datatype KeyValuePair = KeyValuePair(key: string, value: string)

  /** Index of the first occurrence of `c` in `s`, or -1 when `c` does not occur. */
  function IndexOf(s: string, c: char): (r: int)
    ensures -1 <= r < |s|
    ensures r == -1 <==> c !in s
    ensures 0 <= r ==> s[r] == c && c !in s[..r]
  {
    if s == [] then -1
    else if s[0] == c then 0
    else
      var k := IndexOf(s[1..], c);
      assert s[1..][..if k < 0 then 0 else k] == s[1..if k < 0 then 1 else k + 1];
      if k < 0 then -1 else k + 1
  }

  /** A name the code generator can be configured with: non-empty and free of '='. */
  predicate ValidName(name: string) {
    name != [] && '=' !in name
  }

  /** The raw text that denotes a pair. */
  function Format(kv: KeyValuePair): string {
    kv.key + "=" + kv.value
  }

  /** One raw option: accepted exactly when it has an '=' that is not its first character;
      the name is everything before the first '=', the value everything after it. */
  function ParseOption(param: string): (r: Option<KeyValuePair>)
    ensures r.Some? <==> '=' in param && param[0] != '='
    ensures r.Some? ==> ValidName(r.value.key) && Format(r.value) == param
  {
    var indexOfEquals := IndexOf(param, '=');
    if indexOfEquals < 1 then None
    else
      var name := param[..indexOfEquals];
      var value := param[indexOfEquals + 1..];
      assert param == name + "=" + value;
      Some(KeyValuePair(name, value))
  }

  predicate Accepted(param: string) {
    ParseOption(param).Some?
  }

  /** The options in input order, each accepted raw option giving one pair and each
      rejected one giving none. */
  function ParseOptions(options: seq<string>): (r: seq<KeyValuePair>)
    ensures |r| <= |options|
    ensures forall i :: 0 <= i < |r| ==> ValidName(r[i].key)
  {
    if options == [] then []
    else
      var front := ParseOptions(options[..|options| - 1]);
      match ParseOption(options[|options| - 1])
      case None => front
      case Some(kv) => front + [kv]
  }

  /** Formatting a pair with a valid name and parsing it back gives the pair again:
      the split is at the first '=', so the value may itself hold '='. */
  lemma FormatThenParse(kv: KeyValuePair)
    requires ValidName(kv.key)
    ensures ParseOption(Format(kv)) == Some(kv)
  {
    var s := Format(kv);
    var n := |kv.key|;
    assert s[n] == '=';
    assert s[..n] == kv.key;
    assert s[n + 1..] == kv.value;
  }

  /** A parsed pair determines its raw option: two raw options that parse to the same
      pair are the same string. */
  lemma ParseOptionInjective(p: string, q: string)
    requires ParseOption(p).Some? && ParseOption(p) == ParseOption(q)
    ensures p == q
  {
  }

  /** Parsing distributes over concatenation: relative order is preserved and the
      options of each part are parsed independently of the other. */
  lemma {:induction false} ParseOptionsAppend(a: seq<string>, b: seq<string>)
    ensures ParseOptions(a + b) == ParseOptions(a) + ParseOptions(b)
    decreases |b|
  {
    if b == [] {
      assert a + b == a;
    } else {
      var b' := b[..|b| - 1];
      assert (a + b)[..|a + b| - 1] == a + b';
      assert (a + b)[|a + b| - 1] == b[|b| - 1];
      ParseOptionsAppend(a, b');
    }
  }

  /** A single raw option gives exactly one pair when accepted and none otherwise. */
  lemma ParseOptionsSingle(param: string)
    ensures ParseOptions([param]) == if Accepted(param) then [ParseOption(param).value] else []
  {
  }

  /** A rejected raw option can be removed from anywhere in the input without changing
      the result. */
  lemma ParseOptionsSkipsRejected(a: seq<string>, param: string, b: seq<string>)
    requires !Accepted(param)
    ensures ParseOptions(a + [param] + b) == ParseOptions(a + b)
  {
    ParseOptionsAppend(a + [param], b);
    ParseOptionsAppend(a, [param]);
    ParseOptionsSingle(param);
    ParseOptionsAppend(a, b);
  }

  /** A pair is in the result exactly when some raw option parses to it. */
  lemma {:induction false} ParseOptionsMembership(options: seq<string>, kv: KeyValuePair)
    ensures kv in ParseOptions(options) <==> exists p :: p in options && ParseOption(p) == Some(kv)
  {
    if options != [] {
      var front := options[..|options| - 1];
      var last := options[|options| - 1];
      assert options == front + [last];
      ParseOptionsMembership(front, kv);
      if exists p :: p in front && ParseOption(p) == Some(kv) {
        var p :| p in front && ParseOption(p) == Some(kv);
        assert p in options;
      }
      if ParseOption(last) == Some(kv) {
        assert last in options;
      }
      if p :| p in options && ParseOption(p) == Some(kv) {
        if p != last {
          assert p in front;
        }
      }
    }
  }

  /** No raw option is dropped exactly when every raw option is accepted. */
  lemma {:induction false} ParseOptionsKeepsAll(options: seq<string>)
    ensures |ParseOptions(options)| == |options| <==> forall p :: p in options ==> Accepted(p)
  {
    if options != [] {
      var front := options[..|options| - 1];
      var last := options[|options| - 1];
      assert options == front + [last];
      ParseOptionsKeepsAll(front);
      if forall p :: p in options ==> Accepted(p) {
        assert forall p :: p in front ==> Accepted(p);
        assert Accepted(last);
      } else {
        var p :| p in options && !Accepted(p);
        if p != last {
          assert p in front;
        }
      }
    }
  }

  /** Each kept pair is the split of the raw option it came from: for the i-th pair there
      is an input option, at or after position i, whose text is that pair formatted. */
  lemma {:induction false} ParseOptionsFromInputs(options: seq<string>, i: nat)
    requires i < |ParseOptions(options)|
    ensures exists j :: i <= j < |options| && Format(ParseOptions(options)[i]) == options[j]
  {
    var front := options[..|options| - 1];
    var last := options[|options| - 1];
    if i < |ParseOptions(front)| {
      ParseOptionsFromInputs(front, i);
      var j :| i <= j < |front| && Format(ParseOptions(front)[i]) == front[j];
      assert Format(ParseOptions(options)[i]) == options[j];
    } else {
      assert Format(ParseOptions(options)[i]) == options[|options| - 1];
    }
  }

  /** How each raw option of the worked example parses on its own. */
  lemma ExampleOptionsParse()
    ensures ParseOption("opt=1") == Some(KeyValuePair("opt", "1"))
    ensures ParseOption("bad") == None
    ensures ParseOption("=novalue") == None
    ensures ParseOption("x=y=z") == Some(KeyValuePair("x", "y=z"))
  {
    FormatThenParse(KeyValuePair("opt", "1"));
    FormatThenParse(KeyValuePair("x", "y=z"));
    assert Format(KeyValuePair("opt", "1")) == "opt=1";
    assert Format(KeyValuePair("x", "y=z")) == "x=y=z";
  }

  /** Of four raw options where only the first and the last are accepted, the two
      pairs of those are kept, in order. */
  lemma ParseFourKeepsOuter(a: string, b: string, c: string, d: string, x: KeyValuePair, y: KeyValuePair)
    requires ParseOption(a) == Some(x) && ParseOption(d) == Some(y)
    requires !Accepted(b) && !Accepted(c)
    ensures ParseOptions([a, b, c, d]) == [x, y]
  {
    ParseOptionsAppend([a], [b]);
    assert [a] + [b] == [a, b];
    ParseOptionsAppend([a, b], [c]);
    assert [a, b] + [c] == [a, b, c];
    ParseOptionsAppend([a, b, c], [d]);
    assert [a, b, c] + [d] == [a, b, c, d];
    ParseOptionsSingle(a);
    ParseOptionsSingle(b);
    ParseOptionsSingle(c);
    ParseOptionsSingle(d);
  }

  /** The worked example: "bad" has no '=', "=novalue" has an empty name, and
      "x=y=z" is split at its first '='. */
  lemma ParseOptionsExample()
    ensures ParseOptions(["opt=1", "bad", "=novalue", "x=y=z"])
         == [KeyValuePair("opt", "1"), KeyValuePair("x", "y=z")]
  {
    var options := ["opt=1", "bad", "=novalue", "x=y=z"];
    ExampleOptionsParse();
    ParseFourKeepsOuter(options[0], options[1], options[2], options[3],
      KeyValuePair("opt", "1"), KeyValuePair("x", "y=z"));
    assert options == [options[0], options[1], options[2], options[3]];
  }
}
