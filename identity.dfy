/**
 * Who the current user is (content.js, `detectCurrentUser`): a display name
 * read from the first user element with text, else from the page title,
 * and the lower-case alternate handles derived from it.
 */
module Identity {
  import opened Wrappers
  import opened Text
  import opened Splitting

  /** The handle the script always watches for. */
  const Handle := "dbomhof"
  const SignInHeading := "Sign in to your workspace"
  const TitleSeparator := " | "

  /** The two module variables `userName` and `additionalUserNames`. */
  datatype Identity = Identity(name: string, alternates: seq<string>)

  /** What user detection reads from the page. */
  datatype UserFacts = UserFacts(
    h1: Option<string>,                  // text of the first h1, if there is one
    hasWorkspaceInput: bool,             // the sign-in form's workspace field is present
    selectorTexts: seq<Option<string>>,  // text of each user selector's first match, in selector order
    title: string)                       // document.title

  /** The login page: an h1 exists, and it asks to sign in or the workspace field is there. */
  predicate IsLoginPage(f: UserFacts) {
    f.h1.Some? && (Contains(f.h1.value, SignInHeading) || f.hasWorkspaceInput)
  }

  function Words(name: string): seq<string> {
    Split(Spaces, name)
  }

  /** `w.charAt(0)`: the first character, or "" for the empty word. */
  function CharAt0(w: string): string {
    if w == "" then "" else [w[0]]
  }

  /** The candidate handles before the fixed one is added. */
  function BaseAlternates(parts: seq<string>): (r: seq<string>)
    requires |parts| >= 1
  {
    var first := ToLower(parts[0]);
    if |parts| > 1 then
      var last := ToLower(parts[|parts| - 1]);
      [first, last, ToLower(CharAt0(parts[0])) + last]
    else [first]
  }

  /** The alternates of a detected name: first word, last word, initial plus last word, then the fixed handle. */
  function Alternates(name: string): (r: seq<string>)
  {
    var base := BaseAlternates(Words(name));
    if Handle in base then base else base + [Handle]
  }

  predicate AllLowerFilled(alts: seq<string>) {
    forall i :: 0 <= i < |alts| ==> alts[i] != "" && !HasUpper(alts[i])
  }

  /** Every alternate is a non-empty lower-case string, the fixed handle is among them, and there are at most four. */
  lemma AlternatesShape(name: string)
    requires IsTrimmed(name)
    ensures var r := Alternates(name);
      AllLowerFilled(r) && Handle in r && 1 <= |r| <= 4
      && r[0] == ToLower(Words(name)[0])
  {
    WordsAreWords(name);
    var parts := Words(name);
    assert parts[0] != "" && parts[|parts| - 1] != "";
  }

  /** A name of two or more words: first, last, initial plus last, and the handle unless already there. */
  lemma AlternatesOfSeveralWords(name: string)
    requires IsTrimmed(name) && |Words(name)| >= 2
    ensures var parts := Words(name);
      var first := ToLower(parts[0]);
      var last := ToLower(parts[|parts| - 1]);
      var initialLast := ToLower(CharAt0(parts[0])) + last;
      Alternates(name) ==
        [first, last, initialLast] + (if Handle in [first, last, initialLast] then [] else [Handle])
  {
    WordsAreWords(name);
  }

  /** A single-word name: its lower-case form, and the handle unless that is the handle already. */
  lemma AlternatesOfOneWord(name: string)
    requires IsWord(name) && !IsSpace(name[0])
    ensures Alternates(name) == if ToLower(name) == Handle then [Handle] else [ToLower(name), Handle]
  {
    SplitOneWord(name);
  }

  lemma TwoWordAlternates(first: string, last: string, expected: seq<string>)
    requires IsWord(first) && IsWord(last)
    requires expected == BaseAlternates([first, last])
    ensures Alternates(first + " " + last) == if Handle in expected then expected else expected + [Handle]
  {
    SplitTwoWords(first, last);
  }

  lemma BaseOfDrewBomhof()
    ensures BaseAlternates(["Drew", "Bomhof"]) == ["drew", "bomhof", "dbomhof"]
  {
    assert ToLower("Drew") == "drew";
    assert ToLower("Bomhof") == "bomhof";
    assert ToLower(CharAt0("Drew")) == "d";
    assert "d" + "bomhof" == "dbomhof";
  }

  /** The alternates of the extension author's own display name. */
  lemma AlternatesOfDrewBomhof()
    ensures Alternates("Drew Bomhof") == ["drew", "bomhof", "dbomhof"]
  {
    BaseOfDrewBomhof();
    TwoWordAlternates("Drew", "Bomhof", ["drew", "bomhof", "dbomhof"]);
    assert "Drew" + " " + "Bomhof" == "Drew Bomhof";
  }

  /** The list is not free of repeats: a name whose two words both lower-case to the handle lists it twice. */
  lemma HandleCanRepeat(first: string, last: string)
    requires IsWord(first) && IsWord(last)
    requires ToLower(first) == Handle && ToLower(last) == Handle
    ensures var r := Alternates(first + " " + last);
      |r| == 3 && r[0] == Handle && r[1] == Handle
  {
    TwoWordAlternates(first, last, BaseAlternates([first, last]));
  }


  // ---------------------------------------------------------------------------
  // detection

  /** The first selector text that is not blank, trimmed. */
  function FirstNamed(texts: seq<Option<string>>): (r: Option<string>)
    ensures r.Some? ==> IsTrimmed(r.value)
    ensures r.None? <==> forall i :: 0 <= i < |texts| ==> texts[i].None? || Trim(texts[i].value) == ""
    ensures r.Some? ==> exists i :: (0 <= i < |texts| && texts[i].Some? && Trim(texts[i].value) == r.value
      && forall j :: 0 <= j < i ==> texts[j].None? || Trim(texts[j].value) == "")
  {
    if |texts| == 0 then None
    else if texts[0].Some? && Trim(texts[0].value) != "" then Some(Trim(texts[0].value))
    else
      var r := FirstNamed(texts[1..]);
      assert forall i :: 1 <= i < |texts| ==> texts[i] == texts[1..][i - 1];
      r
  }

  /** The name in front of the first " | " of the title, unless it is empty or "Slack". */
  function TitleName(title: string): (r: Option<string>)
    ensures r.Some? ==> r.value != "" && r.value != "Slack"
    ensures r.Some? <==> (Contains(title, TitleSeparator)
      && Trim(BeforeFirstOf(title, TitleSeparator)) !in {"", "Slack"})
    ensures r.Some? ==> r.value == Trim(BeforeFirstOf(title, TitleSeparator))
  {
    if Contains(title, TitleSeparator) then
      var name := Trim(BeforeFirstOf(title, TitleSeparator));
      if name != "" && name != "Slack" then Some(name) else None
    else None
  }

  datatype Detection =
    | OnLoginPage
    | FromSelector(name: string)
    | FromTitle(name: string)
    | Undetected

  function Detect(f: UserFacts): (d: Detection)
    ensures d.FromSelector? ==> IsTrimmed(d.name)
  {
    if IsLoginPage(f) then OnLoginPage
    else match FirstNamed(f.selectorTexts)
      case Some(name) => FromSelector(name)
      case None =>
        match TitleName(f.title)
        case Some(name) => FromTitle(name)
        case None => Undetected
  }

  /** What `detectCurrentUser` returns. */
  predicate Found(d: Detection) {
    d.FromSelector? || d.FromTitle?
  }

  /** The module variables after `detectCurrentUser`. */
  function Apply(d: Detection, id: Identity): Identity
    requires d.FromSelector? ==> IsTrimmed(d.name)
  {
    match d
    case OnLoginPage => id
    case FromSelector(name) => Identity(name, Alternates(name))
    case FromTitle(name) => Identity(name, [Handle])
    case Undetected => Identity(id.name, [Handle])
  }

  /** A named selector element decides the identity, whatever the title says. */
  lemma SelectorDecides(f: UserFacts, id: Identity, name: string)
    requires !IsLoginPage(f) && FirstNamed(f.selectorTexts) == Some(name)
    ensures Detect(f) == FromSelector(name)
    ensures Apply(Detect(f), id) == Identity(name, Alternates(name))
  {
  }

  /** Without a named selector element, a usable title decides the identity. */
  lemma TitleDecides(f: UserFacts, id: Identity, name: string)
    requires !IsLoginPage(f) && FirstNamed(f.selectorTexts).None? && TitleName(f.title) == Some(name)
    ensures Detect(f) == FromTitle(name)
    ensures Apply(Detect(f), id) == Identity(name, [Handle])
  {
  }

  /** With neither, the old name stays and the handle alone is watched. */
  lemma NothingDecides(f: UserFacts, id: Identity)
    requires !IsLoginPage(f) && FirstNamed(f.selectorTexts).None? && TitleName(f.title).None?
    ensures Detect(f) == Undetected
    ensures Apply(Detect(f), id) == Identity(id.name, [Handle])
  {
  }

  /** The login page changes nothing and reports failure, and only the login page does that without trying. */
  lemma DetectOnLoginPage(f: UserFacts, id: Identity)
    ensures IsLoginPage(f) <==> Detect(f) == OnLoginPage
    ensures IsLoginPage(f) ==> Apply(Detect(f), id) == id && !Found(Detect(f))
  {
  }

  /** Off the login page the handle is always watched, and every alternate is a non-empty lower-case string. */
  lemma HandleAlwaysWatched(f: UserFacts, id: Identity)
    requires !IsLoginPage(f)
    ensures Handle in Apply(Detect(f), id).alternates
    ensures AllLowerFilled(Apply(Detect(f), id).alternates)
  {
    var d := Detect(f);
    if d.FromSelector? {
      AlternatesShape(d.name);
    } else {
      assert Apply(d, id).alternates == [Handle];
    }
  }

  /** A success sets a non-empty, trimmed name. */
  lemma FoundSetsName(f: UserFacts, id: Identity)
    requires Found(Detect(f))
    ensures Apply(Detect(f), id).name != ""
    ensures Apply(Detect(f), id).name == Trim(Apply(Detect(f), id).name)
  {
    var d := Detect(f);
    if d.FromSelector? {
      TrimOfTrimmed(d.name);
    } else {
      TrimIdempotent(BeforeFirstOf(f.title, TitleSeparator));
    }
  }

  /** A name taken from the title is never "Slack" and comes with the handle alone. */
  lemma TitleFallback(f: UserFacts, id: Identity)
    requires Detect(f).FromTitle?
    ensures Apply(Detect(f), id).alternates == [Handle]
    ensures Apply(Detect(f), id).name != "Slack"
    ensures FirstNamed(f.selectorTexts).None?
  {
  }

  /** A failure off the login page keeps the old name and watches the handle alone. */
  lemma UndetectedKeepsName(f: UserFacts, id: Identity)
    requires !IsLoginPage(f) && !Found(Detect(f))
    ensures Apply(Detect(f), id) == Identity(id.name, [Handle])
  {
  }

  /** Detecting again on the same page changes nothing more. */
  lemma DetectIdempotent(f: UserFacts, id: Identity)
    ensures Apply(Detect(f), Apply(Detect(f), id)) == Apply(Detect(f), id)
  {
  }
}
