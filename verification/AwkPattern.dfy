/**
 From the text of a pattern to an answer, the way awk does it (mkdfa, match and pmatch in
 usr/src/cmd/awk/b.c): parse the pattern, make the automaton, run it over the text.
 */
module AwkPattern {
  import opened AwkRegex
  import opened AwkParse
  import opened AwkGrammar
  import opened AwkDfa
  import opened AwkSearch
  import opened AwkRun
  import opened AwkFa
  import opened AwkLimits

  /** mkdfa: the automaton of a pattern, or the error that reparse reports. */
  method Mkdfa(s: Text, anchor: bool) returns (f: Fa?, e: Option<Error>)
    requires IsBytes(s)
    ensures f == null <==> Verdict(s) != None
    ensures f == null ==> e == Verdict(s)
    ensures f != null ==> && fresh(f) && fresh(f.posns) && fresh(f.out) && fresh(f.gototab)
                          && f.Valid() && Reparse(s) == Tree(f.user) && f.anchor == anchor
                          && !f.reset && f.initstat == EntryState(f.user) && f.T() == New(f.user, anchor)
  {
    hide Verdict;
    f, e := null, None;
    ReparseVerdict(s);
    var parser := new Parser(s);
    var parsed := parser.Run();
    match parsed
    case Error(err) =>
      e := Some(err);
    case Tree(p) =>
      ReparseTree(s);
      ClosedFamilyExists(p, anchor);
      f := new Fa(p, anchor, AllLists(|Table(p)|));
  }

  /** What match answers on a new automaton of the pattern; the tree is that of reparse. */
  ghost function MatchOf(s: Text, text: seq<nat>): Matched
    requires IsBytes(s) && IsText(text) && Reparse(s).Tree?
  {
    ReparseTree(s);
    CallMatch(Reparse(s).t, New(Reparse(s).t, false), text)
  }

  /** What pmatch does. */
  ghost function FindOf(s: Text, text: seq<nat>): Sought
    requires IsBytes(s) && IsText(text) && Reparse(s).Tree?
  {
    ReparseTree(s);
    Call(Reparse(s).t, New(Reparse(s).t, true), EntryState(Reparse(s).t), text, 0)
  }

  /**
   The error of the pattern, or what match answers for it. That is whether a part of the text is in the
   language of its tree unless the run slips, and it does not slip if few enough lists can occur.
   */
  method MatchText(s: Text, text: seq<nat>) returns (found: bool, e: Option<Error>)
    requires IsBytes(s) && IsText(text)
    ensures e == Verdict(s) && (e == None <==> Reparse(s).Tree?)
    ensures e == None ==> found == MatchOf(s, text).found
    ensures e == None && !MatchOf(s, text).slip ==> (found <==> Occurs(Reparse(s).t, text, true))
    ensures e == None ==> forall family | Fits(Reparse(s).t, false, family) :: !MatchOf(s, text).slip
  {
    hide Verdict, Occurs, CallMatch, Held, Based, Keeps, Fits;
    found := false;
    var f;
    f, e := Mkdfa(s, false);
    ReparseVerdict(s);
    if f != null {
      ghost var slip;
      e := None;
      ReparseTree(s);
      forall family | Fits(f.user, false, family) ensures !MatchOf(s, text).slip {
        FewListsNoSlipMatch(f.user, text, family);
      }
      found, slip := f.Match(text);
    }
  }

  /**
   The error of the pattern, or what pmatch answers: the first place where it matches and, there, the longest
   match.
   */
  method FindText(s: Text, text: seq<nat>) returns (found: bool, patbeg: nat, patlen: int, e: Option<Error>)
    requires IsBytes(s) && IsText(text)
    ensures e == Verdict(s) && (e == None <==> Reparse(s).Tree?)
    ensures e == None ==> var r := FindOf(s, text); found == r.found && patbeg == r.patbeg && patlen == r.patlen
    ensures e == None && !FindOf(s, text).slip ==>
              if found then 0 <= patlen && LeftmostLongest(Reparse(s).t, text, true, 0, patbeg, patlen)
              else !Occurs(Reparse(s).t, text, true)
    ensures e == None ==> forall family | Fits(Reparse(s).t, true, family) :: !FindOf(s, text).slip
  {
    hide Verdict, Occurs, LeftmostLongest, AwkRun.Call, Held, Based, Keeps, Fits;
    found, patbeg, patlen := false, 0, -1;
    var f;
    f, e := Mkdfa(s, true);
    ReparseVerdict(s);
    if f != null {
      ghost var hats, slip;
      e := None;
      ReparseTree(s);
      forall family | Fits(f.user, true, family) ensures !FindOf(s, text).slip {
        FewListsNoSlip(f.user, text, family);
      }
      found, patbeg, patlen, hats, slip := f.Pmatch(text);
    }
  }
}
