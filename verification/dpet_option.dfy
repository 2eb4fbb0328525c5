/** The parse-option builder (dpet/option.go). The two options the package
    offers are the only values of `ParseOption`; each one turns its flag
    on. */
module DpetOption {

  datatype ParseOptionSet = ParseOptionSet(notParseData: bool, onlyHeader: bool)

  datatype ParseOption = NotParseData | OnlyParseHeader

  /** The set a build starts from: both flags off. */
  const NoOptions: ParseOptionSet := ParseOptionSet(false, false)

  /** Running one option. */
  function Apply(opt: ParseOption, options: ParseOptionSet): (r: ParseOptionSet)
    ensures opt == NotParseData ==> r.notParseData && r.onlyHeader == options.onlyHeader
    ensures opt == OnlyParseHeader ==> r.onlyHeader && r.notParseData == options.notParseData
  {
    match opt
    case NotParseData => options.(notParseData := true)
    case OnlyParseHeader => options.(onlyHeader := true)
  }

  /** Options run left to right. */
  function ApplyAll(options: ParseOptionSet, opts: seq<ParseOption>): ParseOptionSet
    decreases |opts|
  {
    if |opts| == 0 then options else ApplyAll(Apply(opts[0], options), opts[1..])
  }

  /** A flag ends up on exactly when it was on already or some option
      turns it on. */
  lemma {:induction false} ApplyAllFlags(options: ParseOptionSet, opts: seq<ParseOption>)
    ensures ApplyAll(options, opts).notParseData <==> options.notParseData || NotParseData in opts
    ensures ApplyAll(options, opts).onlyHeader <==> options.onlyHeader || OnlyParseHeader in opts
    decreases |opts|
  {
    if |opts| > 0 {
      ApplyAllFlags(Apply(opts[0], options), opts[1..]);
      assert opts == [opts[0]] + opts[1..];
    }
  }

  /** Order and repetition do not matter: two lists naming the same
      options build the same set. */
  lemma ApplyAllOrderIndependent(a: seq<ParseOption>, b: seq<ParseOption>)
    requires forall o :: o in a <==> o in b
    ensures ApplyAll(NoOptions, a) == ApplyAll(NoOptions, b)
  {
    ApplyAllFlags(NoOptions, a);
    ApplyAllFlags(NoOptions, b);
  }

  /** Running one more option after a list is running the longer list. */
  lemma {:induction false} ApplyAllSnoc(options: ParseOptionSet, opts: seq<ParseOption>, opt: ParseOption)
    ensures ApplyAll(options, opts + [opt]) == Apply(opt, ApplyAll(options, opts))
    decreases |opts|
  {
    if |opts| > 0 {
      assert (opts + [opt])[1..] == opts[1..] + [opt];
      ApplyAllSnoc(Apply(opts[0], options), opts[1..], opt);
    }
  }

  /** `genParseOption(opts...)`: the loop builds the left fold, so a flag
      is on exactly when some option names it. */
  method GenParseOption(opts: seq<ParseOption>) returns (r: ParseOptionSet)
    ensures r == ApplyAll(NoOptions, opts)
    ensures r.notParseData <==> NotParseData in opts
    ensures r.onlyHeader <==> OnlyParseHeader in opts
    ensures opts == [] ==> r == NoOptions
  {
    r := NoOptions;
    var i := 0;
    while i < |opts|
      invariant 0 <= i <= |opts|
      invariant r == ApplyAll(NoOptions, opts[..i])
    {
      assert opts[..i + 1] == opts[..i] + [opts[i]];
      ApplyAllSnoc(NoOptions, opts[..i], opts[i]);
      r := Apply(opts[i], r);
      i := i + 1;
    }
    assert opts[..i] == opts;
    ApplyAllFlags(NoOptions, opts);
  }
}
