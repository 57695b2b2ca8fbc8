/**
 * The argument handling of the KLayout extraction script: every `key=value`
 * argument KLayout passes on (`-rd key=value`) is read into a dictionary,
 * and the three paths the script needs must all be given and non-empty.
 */
module KlayoutParams {
  import opened Wrappers
  import opened Text

  /** Index of the first '=' in `s`, or `|s|` when there is none. */
  function EqIndex(s: string): (i: nat)
    ensures i <= |s| && '=' !in s[..i]
    ensures i < |s| <==> '=' in s
    ensures i < |s| ==> s[i] == '='
  {
    if s == [] then 0
    else if s[0] == '=' then 0
    else
      var i := EqIndex(s[1..]);
      assert s[..i + 1] == [s[0]] + s[1..][..i];
      1 + i
  }

  /**
   * `arg.split("=", 1)` for an argument holding '=': the text before the
   * first '=' and everything after it, further '=' included. None when the
   * argument holds no '='.
   */
  function SplitAtEq(arg: string): (r: Option<(string, string)>)
    ensures r.None? <==> '=' !in arg
    ensures r.Some? ==> arg == r.value.0 + "=" + r.value.1 && '=' !in r.value.0
  {
    var i := EqIndex(arg);
    if i == |arg| then None
    else
      assert arg == arg[..i] + "=" + arg[i + 1..];
      Some((arg[..i], arg[i + 1..]))
  }

  /** Splitting inverts joining at an '=' the key does not hold, whatever the value holds. */
  lemma SplitJoined(key: string, value: string)
    requires '=' !in key
    ensures SplitAtEq(key + "=" + value) == Some((key, value))
  {
    var s := key + "=" + value;
    var i := EqIndex(s);
    assert s[|key|] == '=';
    assert s[..|key|] == key && s[|key| + 1..] == value;
  }

  /** What one argument adds to the dictionary: its stripped key and value. */
  function Entry(arg: string): Option<(string, string)> {
    match SplitAtEq(arg)
    case None => None
    case Some(kv) => Some((Strip(kv.0), Strip(kv.1)))
  }

  /** What each argument adds, in order. */
  function Entries(argv: seq<string>): (es: seq<Option<(string, string)>>)
    ensures |es| == |argv| && forall i | 0 <= i < |argv| :: es[i] == Entry(argv[i])
  {
    seq(|argv|, i requires 0 <= i < |argv| => Entry(argv[i]))
  }

  /** The dictionary the entries `es` build, a later key overwriting an earlier one. */
  function Dictionary(es: seq<Option<(string, string)>>): map<string, string> {
    if es == [] then map[]
    else
      var params := Dictionary(es[..|es| - 1]);
      match es[|es| - 1]
      case None => params
      case Some(kv) => params[kv.0 := kv.1]
  }

  /** The dictionary after the loop has read the arguments `argv`. */
  function ParamsOf(argv: seq<string>): map<string, string> {
    Dictionary(Entries(argv))
  }

  /** The loop over `sys.argv` that fills `params`. */
  method ParseParams(argv: seq<string>) returns (params: map<string, string>)
    ensures params == ParamsOf(argv)
  {
    ghost var es := Entries(argv);
    params := map[];
    for i := 0 to |argv|
      invariant params == Dictionary(es[..i])
    {
      var arg := argv[i];
      DictionaryStep(es, i);
      if '=' in arg {
        var kv := SplitAtEq(arg).value;
        params := params[Strip(kv.0) := Strip(kv.1)];
      }
    }
    assert es[..|argv|] == es;
  }

  /** Reading one more entry. */
  lemma DictionaryStep(es: seq<Option<(string, string)>>, i: nat)
    requires i < |es|
    ensures Dictionary(es[..i + 1]) == match es[i]
      case None => Dictionary(es[..i])
      case Some(kv) => Dictionary(es[..i])[kv.0 := kv.1]
  {
    assert es[..i + 1][..i] == es[..i];
  }

  /** An argument without '=' adds nothing. */
  lemma NoEqAddsNothing(argv: seq<string>, arg: string)
    requires '=' !in arg
    ensures ParamsOf(argv + [arg]) == ParamsOf(argv)
  {
    var es := Entries(argv + [arg]);
    assert es[..|argv|] == Entries(argv);
  }

  /** A later argument with the same stripped key overwrites the earlier value. */
  lemma LaterOverwrites(argv: seq<string>, arg: string)
    requires '=' in arg
    ensures var kv := SplitAtEq(arg).value;
      ParamsOf(argv + [arg]) == ParamsOf(argv)[Strip(kv.0) := Strip(kv.1)]
  {
    var es := Entries(argv + [arg]);
    assert es[..|argv|] == Entries(argv);
  }

  /** The entry at `j` sets `key`. */
  predicate Sets(es: seq<Option<(string, string)>>, j: int, key: string) {
    0 <= j < |es| && es[j].Some? && es[j].value.0 == key
  }

  /** The entry at `j` is the last one that sets `key`. */
  predicate LastToSet(es: seq<Option<(string, string)>>, key: string, j: int) {
    Sets(es, j, key) && forall l | j < l < |es| :: !Sets(es, l, key)
  }

  /**
   * A key is in the dictionary exactly when some entry sets it, and its
   * value is the one the last such entry gives it.
   */
  lemma {:induction false} Lookup(es: seq<Option<(string, string)>>, key: string)
    ensures key in Dictionary(es) <==> exists j :: Sets(es, j, key)
    ensures forall j | LastToSet(es, key, j) :: key in Dictionary(es) && Dictionary(es)[key] == es[j].value.1
    decreases |es|
  {
    if es != [] {
      var n := |es| - 1;
      var init := es[..n];
      Lookup(init, key);
      assert forall j | 0 <= j < n :: Sets(init, j, key) == Sets(es, j, key);
      if Sets(es, n, key) {
        assert Dictionary(es) == Dictionary(init)[key := es[n].value.1];
        forall j | LastToSet(es, key, j) ensures j == n { }
      } else {
        assert key in Dictionary(es) <==> key in Dictionary(init);
        assert key in Dictionary(es) ==> Dictionary(es)[key] == Dictionary(init)[key];
        forall j | LastToSet(es, key, j) ensures LastToSet(init, key, j) { }
      }
    }
  }

  /**
   * On the arguments: a key is given exactly when some argument sets it,
   * and it holds the stripped value of the last argument that sets it,
   * wherever that argument stands, the first argument included.
   */
  lemma LookupArgs(argv: seq<string>, key: string, j: nat)
    requires LastToSet(Entries(argv), key, j)
    ensures key in ParamsOf(argv)
    ensures ParamsOf(argv)[key] == Strip(SplitAtEq(argv[j]).value.1)
  {
    Lookup(Entries(argv), key);
  }

  /** Every key and every value in the dictionary is stripped of surrounding whitespace. */
  lemma AllStripped(argv: seq<string>)
    ensures forall k | k in ParamsOf(argv) :: Strip(k) == k && Strip(ParamsOf(argv)[k]) == ParamsOf(argv)[k]
  {
    var es := Entries(argv);
    forall j | 0 <= j < |es| && es[j].Some?
      ensures Strip(es[j].value.0) == es[j].value.0 && Strip(es[j].value.1) == es[j].value.1
    {
      EntryStripped(argv[j]);
    }
    DictionaryStripped(es);
  }

  /** The dictionary of stripped entries holds only stripped keys and values. */
  lemma {:induction false} DictionaryStripped(es: seq<Option<(string, string)>>)
    requires forall j | 0 <= j < |es| && es[j].Some? :: Strip(es[j].value.0) == es[j].value.0 && Strip(es[j].value.1) == es[j].value.1
    ensures forall k | k in Dictionary(es) :: Strip(k) == k && Strip(Dictionary(es)[k]) == Dictionary(es)[k]
    decreases |es|
  {
    if es != [] {
      var init := es[..|es| - 1];
      assert forall j | 0 <= j < |init| :: init[j] == es[j];
      DictionaryStripped(init);
    }
  }

  lemma EntryStripped(arg: string)
    requires Entry(arg).Some?
    ensures Strip(Entry(arg).value.0) == Entry(arg).value.0
    ensures Strip(Entry(arg).value.1) == Entry(arg).value.1
  {
    var raw := SplitAtEq(arg).value;
    StripFixed(raw.0);
    StripFixed(raw.1);
  }

  /** Stripping twice strips no more than once. */
  lemma StripFixed(s: string)
    ensures Strip(Strip(s)) == Strip(s)
  {
    var r := Strip(s);
    StripSound(s);
    assert r[0..0 + |r|] == r;
    StrippedIsStrip(r, 0, r);
  }

  const MissingParams := "Missing required -rd parameters"

  /** `not params.get(key)`: the key is missing or its value is empty. */
  predicate Blank(params: map<string, string>, key: string) {
    key !in params || params[key] == []
  }

  /** The three paths the script needs: the GDS layout, the PNG to render and the metadata file. */
  datatype Inputs = Inputs(gds: string, png: string, meta: string)

  /** The required-parameter check: a RuntimeError unless "gds", "png" and "meta" are all given. */
  function RequiredParams(params: map<string, string>): (r: Result<Inputs, string>)
    ensures r.Failure? <==> Blank(params, "gds") || Blank(params, "png") || Blank(params, "meta")
    ensures r.Failure? ==> r.error == MissingParams
    ensures r.Success? ==>
      && r.value.gds != [] && r.value.png != [] && r.value.meta != []
      && r.value == Inputs(params["gds"], params["png"], params["meta"])
  {
    if Blank(params, "gds") || Blank(params, "png") || Blank(params, "meta") then Failure(MissingParams)
    else Success(Inputs(params["gds"], params["png"], params["meta"]))
  }

  /**
   * The script goes on with a key's path exactly when the last argument
   * setting that key gives it a value that is not blank.
   */
  lemma RequiredFromLast(argv: seq<string>, key: string, j: nat)
    requires LastToSet(Entries(argv), key, j)
    ensures !Blank(ParamsOf(argv), key) <==> Strip(SplitAtEq(argv[j]).value.1) != []
  {
    LookupArgs(argv, key, j);
  }
}
