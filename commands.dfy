/**
 * The command set of workflows/phylo.py: parsed from the comma-separated
 * `--commands` argument, replaced wholesale by `autopilot`, and stripped of
 * `align` and `concatenate` when a flattened alignment scores below the
 * identity threshold.
 */
module Commands {
  import opened Util
  import opened Text

  /** `set([x.strip() for x in ARGS.commands.split(',')])`, or `None` if no or an empty argument was given. */
  function ParseCommands(arg: Option<String>): (r: Option<set<String>>)
    ensures r.None? <==> arg.None? || arg.value == []
    ensures r.Some? ==> forall c :: c in r.value <==> exists p :: p in Split(arg.value, ",") && Strip(p) == c
  {
    if arg.None? || arg.value == [] then None
    else Some(set p | p in Split(arg.value, ",") :: Strip(p))
  }

  /** A name as it can appear in a command list: no comma, no surrounding whitespace. */
  predicate PlainCommand(c: String) {
    ',' !in c && Strip(c) == c
  }

  lemma StrippedPlain(cs: seq<String>)
    requires forall i :: 0 <= i < |cs| ==> Strip(cs[i]) == cs[i]
    ensures (set p | p in cs :: Strip(p)) == set c | c in cs
  {
    forall c | c in cs ensures c in set p | p in cs :: Strip(p) {
      var i :| 0 <= i < |cs| && cs[i] == c;
      assert Strip(cs[i]) == c;
    }
  }

  /** Writing plain commands joined by commas and parsing the argument gives back those commands. */
  lemma ParseJoinRoundTrip(cs: seq<String>)
    requires |cs| >= 1 && Join(cs, ",") != []
    requires forall i :: 0 <= i < |cs| ==> PlainCommand(cs[i])
    ensures ParseCommands(Some(Join(cs, ","))) == Some(set c | c in cs)
  {
    SplitJoinAvoiding(cs, ",");
    StrippedPlain(cs);
  }

  /** What `autopilot` stands for. */
  const AUTOPILOT: set<String> := {"search", "resolve_org_names", "extract_loci", "flatten", "align", "concatenate"}

  /** `if 'autopilot' in COMMANDS: COMMANDS = set([...])`. */
  function Autopilot(cmds: set<String>): (r: set<String>)
    ensures "autopilot" in cmds ==> r == AUTOPILOT && "autopilot" !in r
    ensures "autopilot" !in cmds ==> r == cmds
  {
    if "autopilot" in cmds then AUTOPILOT else cmds
  }

  /** The two `COMMANDS.remove` calls guarded by membership, after a low identity score. */
  function Gate(cmds: set<String>): (r: set<String>)
    ensures "align" !in r && "concatenate" !in r
    ensures forall c :: c != "align" && c != "concatenate" ==> (c in r <==> c in cmds)
    ensures r <= cmds
  {
    var afterAlign := if "align" in cmds then cmds - {"align"} else cmds;
    if "concatenate" in afterAlign then afterAlign - {"concatenate"} else afterAlign
  }

  /** The gate applied only when the identity score is below the bottom of the accepted range. */
  function GateOnScore(cmds: set<String>, score: real, bottom: real): (r: set<String>)
    ensures score < bottom ==> "align" !in r && "concatenate" !in r
    ensures score >= bottom ==> r == cmds
  {
    if score < bottom then Gate(cmds) else cmds
  }

  /** Removing the two commands a second time changes nothing; other commands survive any number of gates. */
  lemma GateIdempotent(cmds: set<String>)
    ensures Gate(Gate(cmds)) == Gate(cmds)
    ensures forall s1, s2: real, b :: GateOnScore(GateOnScore(cmds, s1, b), s2, b) ==
                                      (if s1 < b || s2 < b then Gate(cmds) else cmds)
  {
  }
}
