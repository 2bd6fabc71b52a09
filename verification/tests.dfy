/** The examples of src/tests/index.test.ts, proved about the model.
    Each example is assembled from small facts about its literal pieces,
    joined by the general lemmas of Utils. */
module UtilsTests {
  import opened Types
  import opened Text
  import opened Utils

  /** A word without white space normalizes to its lower-cased form when that is an identifier. */
  lemma NormalizeLowerCased(s: string, lowered: string)
    requires LowerCase(s) == lowered
    requires IsIdentifier(lowered)
    ensures NormalizeComponentName(s) == lowered
  {
    assert forall c :: c in lowered ==> !IsWhitespace(c);
  }

  // ---------------------------------------------------------------------------
  // normalizeComponentName

  /* Facts about single literals, one lemma each: the lower-cased form of each
     word in the test inputs, the normal form of the white-space gaps and of the
     `!@#` suffix. Kept apart so that no proof below has to evaluate more than
     one literal at a time; the examples combine them through the general
     lemmas WordThen, ThenWord and TwoWords. */
  lemma LowerAlert() ensures LowerCase("Alert") == "alert" && IsIdentifier("alert") {}
  lemma LowerDialog() ensures LowerCase("Dialog") == "dialog" && IsIdentifier("dialog") {}
  lemma LowerButton() ensures LowerCase("Button") == "button" && IsIdentifier("button") {}
  lemma LowerUpperButton() ensures LowerCase("BUTTON") == "button" && IsIdentifier("button") {}
  lemma LowerNavigation() ensures LowerCase("Navigation") == "navigation" && IsIdentifier("navigation") {}
  lemma LowerMenu() ensures LowerCase("Menu") == "menu" && IsIdentifier("menu") {}

  lemma OneBlank() ensures NormalizeComponentName(" ") == "-" {}
  lemma TwoBlanks() ensures NormalizeComponentName("  ") == "-" {}
  lemma SymbolsLower() ensures LowerCase("!@#") == "!@#" {}
  lemma SymbolsNoWhitespace() ensures forall c :: c in "!@#" ==> !IsWhitespace(c) {}
  lemma SymbolsDropped() ensures KeepIdentifierChars("!@#") == "" {}

  /** `!@#` vanishes: it has no white space and no identifier character. */
  lemma Symbols() ensures NormalizeComponentName("!@#") == ""
  {
    NormalizeStages("!@#");
    SymbolsLower();
    SymbolsNoWhitespace();
    SymbolsDropped();
  }

  /* How each test input splits into word, gap and word, and how the expected
     output joins back; pure literal equalities. */
  lemma AlertDialogPieces()
    ensures "Alert Dialog" == "Alert" + (" " + "Dialog")
    ensures "alert" + ("-" + "dialog") == "alert-dialog"
  {
  }

  lemma NavigationMenuPieces()
    ensures "Navigation  Menu" == "Navigation" + ("  " + "Menu")
    ensures "navigation" + ("-" + "menu") == "navigation-menu"
  {
  }

  lemma ButtonSymbolsPieces()
    ensures "Button!@#" == "Button" + "!@#"
    ensures "button" + "" == "button"
  {
  }

  /** A word whose lower-cased form is an identifier normalizes to that form
      before anything that follows it. */
  lemma WordThen(w: string, l: string, rest: string)
    requires LowerCase(w) == l && IsIdentifier(l) && l != []
    ensures NormalizeComponentName(w + rest) == l + NormalizeComponentName(rest)
  {
    NormalizeLowerCased(w, l);
    assert |w| == |l|;
    var last := w[|w| - 1];
    assert l[|l| - 1] == ToLowerAscii(last) && l[|l| - 1] in l;
    LowerKeepsWhitespace(last);
    NormalizeAppend(w, rest);
  }

  /** ... and after anything that precedes it. */
  lemma ThenWord(rest: string, w: string, l: string)
    requires LowerCase(w) == l && IsIdentifier(l) && l != []
    ensures NormalizeComponentName(rest + w) == NormalizeComponentName(rest) + l
  {
    NormalizeLowerCased(w, l);
    assert |w| == |l|;
    var first := w[0];
    assert l[0] == ToLowerAscii(first) && l[0] in l;
    LowerKeepsWhitespace(first);
    NormalizeAppend(rest, w);
  }

  /** A word, a white-space run, and a word: the run becomes one hyphen. */
  lemma TwoWords(w1: string, gap: string, w2: string, l1: string, l2: string)
    requires LowerCase(w1) == l1 && IsIdentifier(l1) && l1 != []
    requires LowerCase(w2) == l2 && IsIdentifier(l2) && l2 != []
    requires NormalizeComponentName(gap) == "-"
    ensures NormalizeComponentName(w1 + (gap + w2)) == l1 + ("-" + l2)
  {
    ThenWord(gap, w2, l2);
    WordThen(w1, l1, gap + w2);
  }

  /** index.test.ts: `Alert Dialog` becomes `alert-dialog`. */
  lemma NormalizeSpacesExample()
    ensures NormalizeComponentName("Alert Dialog") == "alert-dialog"
  {
    LowerAlert();
    LowerDialog();
    OneBlank();
    AlertDialogPieces();
    TwoWords("Alert", " ", "Dialog", "alert", "dialog");
  }

  /** index.test.ts: the two spaces of `Navigation  Menu` become one hyphen. */
  lemma NormalizeMultipleSpacesExample()
    ensures NormalizeComponentName("Navigation  Menu") == "navigation-menu"
  {
    LowerNavigation();
    LowerMenu();
    TwoBlanks();
    NavigationMenuPieces();
    TwoWords("Navigation", "  ", "Menu", "navigation", "menu");
  }

  /** index.test.ts: `BUTTON` becomes `button`. */
  lemma NormalizeCaseExample()
    ensures NormalizeComponentName("BUTTON") == "button"
  {
    LowerUpperButton();
    NormalizeLowerCased("BUTTON", "button");
  }

  /** index.test.ts: the symbols of `Button!@#` are dropped. */
  lemma NormalizeSpecialCharsExample()
    ensures NormalizeComponentName("Button!@#") == "button"
  {
    LowerButton();
    Symbols();
    ButtonSymbolsPieces();
    WordThen("Button", "button", "!@#");
  }

  // ---------------------------------------------------------------------------
  // validateProjectName

  /** index.test.ts: names the tool accepts. */
  lemma ValidNamesExample()
    ensures ValidateProjectName("my-project")
    ensures ValidateProjectName("myproject")
    ensures ValidateProjectName("my-project-123")
  {
  }

  /** index.test.ts: empty, or a hyphen at either end. */
  lemma BadEdgesExample()
    ensures !ValidateProjectName("")
    ensures !ValidateProjectName("-my-project")
    ensures !ValidateProjectName("my-project-")
  {
  }

  /** The regular expression needs a first and a last character, so a
      one-character name is rejected although npm accepts it. */
  lemma OneCharacterNameExample()
    ensures !ValidateProjectName("a")
  {
  }

  /** index.test.ts: capitals and underscores. */
  lemma BadCharactersExample()
    ensures !ValidateProjectName("My-Project")
    ensures !ValidateProjectName("my_project")
  {
    assert '_' in "my_project" && !IsIdentifierChar('_');
  }

  // ---------------------------------------------------------------------------
  // parseComponentsString

  /** A comma-free piece made of a trimmed core between white space parses to the core's normal form. */
  lemma Piece(piece: string, lead: string, core: string, trail: string, normalized: string)
    requires piece == lead + core + trail && ',' !in piece
    requires AllWhitespace(lead) && AllWhitespace(trail)
    requires core != [] && !IsWhitespace(core[0]) && !IsWhitespace(core[|core| - 1])
    requires NormalizeComponentName(core) == normalized
    ensures ParseComponentsString(piece) == [normalized]
  {
    TrimRemovesPadding(lead, core, trail);
    ParseOneComponent(piece);
  }

  /** A bare identifier parses to itself. */
  lemma Word(w: string)
    requires IsIdentifier(w) && w != [] && ',' !in w
    ensures ParseComponentsString(w) == [w]
  {
    NormalizeFixedPoints(w);
    assert w[0] in w && w[|w| - 1] in w;
    assert w == "" + w + "";
    Piece(w, "", w, "", w);
  }

  /** An identifier with white space around it parses to the identifier. */
  lemma PaddedWord(piece: string, lead: string, w: string, trail: string)
    requires piece == lead + w + trail && ',' !in piece
    requires AllWhitespace(lead) && AllWhitespace(trail)
    requires IsIdentifier(w) && w != []
    ensures ParseComponentsString(piece) == [w]
  {
    NormalizeFixedPoints(w);
    assert w[0] in w && w[|w| - 1] in w;
    Piece(piece, lead, w, trail, w);
  }

  /** Three pieces joined by commas, each parsing to one name. */
  lemma Three(a: string, b: string, c: string, la: string, lb: string, lc: string)
    requires ParseComponentsString(a) == [la] && ParseComponentsString(b) == [lb] && ParseComponentsString(c) == [lc]
    ensures ParseComponentsString(a + "," + b + "," + c) == [la, lb, lc]
  {
    var ab := a + "," + b;
    ParseComponentsAtComma(ab, c);
    ParseComponentsAtComma(a, b);
    assert ParseComponentsString(ab) == [la] + [lb];
    assert ParseComponentsString(ab + "," + c) == [la] + [lb] + [lc];
    Triple(la, lb, lc);
  }

  /** Three singletons concatenated form the three-element sequence. */
  lemma Triple<T>(x: T, y: T, z: T)
    ensures [x] + [y] + [z] == [x, y, z]
  {
  }

  /** A blank list parses to nothing. */
  lemma Blank()
    ensures ParseComponentsString("") == []
  {
    ParseOneComponent("");
  }

  /** The empty string and one space are white-space padding. */
  lemma Spaces()
    ensures AllWhitespace("") && AllWhitespace(" ")
  {
  }

  /** Any string is itself between empty padding, the shape Piece expects. */
  lemma Bare(a: string)
    ensures a == "" + a + ""
  {
  }

  /** Three identifiers joined by commas. */
  lemma ThreeWords(a: string, b: string, c: string)
    requires IsIdentifier(a) && a != [] && ',' !in a
    requires IsIdentifier(b) && b != [] && ',' !in b
    requires IsIdentifier(c) && c != [] && ',' !in c
    ensures ParseComponentsString(a + "," + b + "," + c) == [a, b, c]
  {
    Word(a);
    Word(b);
    Word(c);
    Three(a, b, c, a, b, c);
  }

  /** How `a , b , c` regroups into three comma-free pieces with their padding. */
  lemma SpacedPieces(a: string, b: string, c: string)
    ensures a + " , " + b + " , " + c == (a + " ") + "," + (" " + b + " ") + "," + (" " + c)
    ensures a + " " == "" + a + " " && " " + c == " " + c + ""
  {
  }

  /** Three identifiers joined by ` , `. */
  lemma SpacedWords(a: string, b: string, c: string)
    requires IsIdentifier(a) && a != [] && ',' !in a
    requires IsIdentifier(b) && b != [] && ',' !in b
    requires IsIdentifier(c) && c != [] && ',' !in c
    ensures ParseComponentsString(a + " , " + b + " , " + c) == [a, b, c]
  {
    Spaces();
    SpacedPieces(a, b, c);
    PaddedWord(a + " ", "", a, " ");
    PaddedWord(" " + b + " ", " ", b, " ");
    PaddedWord(" " + c, " ", c, "");
    Three(a + " ", " " + b + " ", " " + c, a, b, c);
  }

  /** Three comma-free names without surrounding white space, each normalized. */
  lemma NormalizedWords(a: string, b: string, c: string, la: string, lb: string, lc: string)
    requires a != [] && ',' !in a && !IsWhitespace(a[0]) && !IsWhitespace(a[|a| - 1])
    requires b != [] && ',' !in b && !IsWhitespace(b[0]) && !IsWhitespace(b[|b| - 1])
    requires c != [] && ',' !in c && !IsWhitespace(c[0]) && !IsWhitespace(c[|c| - 1])
    requires NormalizeComponentName(a) == la && NormalizeComponentName(b) == lb && NormalizeComponentName(c) == lc
    ensures ParseComponentsString(a + "," + b + "," + c) == [la, lb, lc]
  {
    Spaces();
    Bare(a);
    Bare(b);
    Bare(c);
    Piece(a, "", a, "", la);
    Piece(b, "", b, "", lb);
    Piece(c, "", c, "", lc);
    Three(a, b, c, la, lb, lc);
  }

  /** A name, a blank piece, a name and a blank piece. */
  lemma Sparse(a: string, blank: string, b: string, la: string, lb: string)
    requires ParseComponentsString(a) == [la] && ParseComponentsString(b) == [lb]
    requires ParseComponentsString(blank) == []
    ensures ParseComponentsString(a + "," + blank + "," + b + "," + blank) == [la, lb]
  {
    var ab := a + "," + blank;
    var abb := ab + "," + b;
    ParseComponentsAtComma(a, blank);
    assert ParseComponentsString(ab) == [la];
    ParseComponentsAtComma(ab, b);
    Pair(la, lb);
    ParseComponentsAtComma(abb, blank);
  }

  /** Two singletons concatenated form the two-element sequence. */
  lemma Pair<T>(x: T, y: T)
    ensures [x] + [y] == [x, y]
  {
  }

  /** Two identifiers with a blank piece between them and one after. */
  lemma SparseWords(a: string, b: string, blank: string)
    requires IsIdentifier(a) && a != [] && ',' !in a
    requires IsIdentifier(b) && b != [] && ',' !in b
    requires ',' !in blank && Trim(blank) == []
    ensures ParseComponentsString(a + "," + blank + "," + b + "," + blank) == [a, b]
  {
    Word(a);
    Word(b);
    ParseOneComponent(blank);
    Sparse(a, blank, b, a, b);
  }

  /* The test's component names are identifiers without commas. */
  lemma Button() ensures IsIdentifier("button") && ',' !in "button" {}
  lemma Card() ensures IsIdentifier("card") && ',' !in "card" {}
  lemma Input() ensures IsIdentifier("input") && ',' !in "input" {}

  /** index.test.ts: a plain comma-separated list. */
  lemma ParseCommaSeparatedExample()
    ensures ParseComponentsString("button,card,input") == ["button", "card", "input"]
  {
    Button();
    Card();
    Input();
    assert "button,card,input" == "button" + "," + "card" + "," + "input";
    ThreeWords("button", "card", "input");
  }

  /** index.test.ts: spaces around the commas are trimmed away. */
  lemma ParseSpacesAroundCommasExample()
    ensures ParseComponentsString("button , card , input") == ["button", "card", "input"]
  {
    Button();
    Card();
    Input();
    assert "button , card , input" == "button" + " , " + "card" + " , " + "input";
    SpacedWords("button", "card", "input");
  }

  /* Literal facts and pieces for `Input Field` and `Button`, as above. */
  lemma LowerInput() ensures LowerCase("Input") == "input" && IsIdentifier("input") {}
  lemma LowerField() ensures LowerCase("Field") == "field" && IsIdentifier("field") {}

  lemma InputFieldPieces()
    ensures "Input Field" == "Input" + (" " + "Field")
    ensures "input" + ("-" + "field") == "input-field"
  {
  }

  /** `Input Field` normalizes to `input-field`. */
  lemma InputFieldExample()
    ensures NormalizeComponentName("Input Field") == "input-field"
  {
    LowerInput();
    LowerField();
    OneBlank();
    InputFieldPieces();
    TwoWords("Input", " ", "Field", "input", "field");
  }

  /** `Button` normalizes to `button`. */
  lemma ButtonExample()
    ensures NormalizeComponentName("Button") == "button"
  {
    LowerButton();
    NormalizeLowerCased("Button", "button");
  }

  /** The list of the normalization test, cut at its commas. */
  lemma NamedListPieces()
    ensures "Alert Dialog,Button,Input Field" == "Alert Dialog" + "," + "Button" + "," + "Input Field"
  {
  }

  /** Its pieces have no commas, and no white space at either end. */
  lemma NamedListEnds()
    ensures ',' !in "Alert Dialog" && ',' !in "Button" && ',' !in "Input Field"
    ensures !IsWhitespace('A') && !IsWhitespace('g') && !IsWhitespace('B') && !IsWhitespace('n')
    ensures !IsWhitespace('I') && !IsWhitespace('d')
  {
  }

  /** index.test.ts: the parsed names come out normalized. */
  lemma ParseNormalizesExample()
    ensures ParseComponentsString("Alert Dialog,Button,Input Field") == ["alert-dialog", "button", "input-field"]
  {
    NamedListPieces();
    NamedListEnds();
    NormalizeSpacesExample();
    ButtonExample();
    InputFieldExample();
    NormalizedWords("Alert Dialog", "Button", "Input Field", "alert-dialog", "button", "input-field");
  }

  /** `button,,card,` cut at its commas, with its blank pieces. */
  lemma EmptyPieces()
    ensures "button,,card," == "button" + "," + "" + "," + "card" + "," + ""
    ensures Trim("") == []
  {
  }

  /** index.test.ts: empty pieces are dropped. */
  lemma ParseFiltersEmptyExample()
    ensures ParseComponentsString("button,,card,") == ["button", "card"]
  {
    Button();
    Card();
    EmptyPieces();
    SparseWords("button", "card", "");
  }

  // ---------------------------------------------------------------------------
  // parseArgs

  /** A flag without `=` is its own name. */
  lemma PlainFlag(flag: string)
    requires '=' !in flag
    ensures FlagName(flag) == flag
  {
    SplitWithoutSeparator(flag, '=');
  }

  /** A boolean flag after the first token sets its field. */
  lemma BooleanFlagSecond(first: string, flag: string)
    requires IsBooleanFlag(flag) && IsLongFlag(flag) && '=' !in flag
    ensures FlagField(ParseArgs([first, flag]), flag)
  {
    PlainFlag(flag);
    var tokens := [first, flag];
    assert tokens[1] == flag;
    ParseArgsBooleanFlag(tokens, flag);
  }

  /** index.test.ts: a lone name gives the create command and nothing else. */
  lemma ParseProjectNameExample()
    ensures ParseArgs(["my-project"]) == CliArgs("my-project", None, false, false, false, false, Create)
  {
  }

  /** index.test.ts: `add-all` selects the add-all command and is not a project name. */
  lemma ParseAddAllExample()
    ensures ParseArgs(["add-all"]).command == AddAll
    ensures ParseArgs(["add-all"]).projectName == ""
  {
  }

  /* Each boolean flag of the tests is a recognised long flag without a value. */
  lemma DryRunFlag() ensures IsBooleanFlag("--dry-run") && IsLongFlag("--dry-run") && '=' !in "--dry-run" {}
  lemma NoInstallFlag() ensures IsBooleanFlag("--no-install") && IsLongFlag("--no-install") && '=' !in "--no-install" {}
  lemma UseConfigFlag() ensures IsBooleanFlag("--use-config") && IsLongFlag("--use-config") && '=' !in "--use-config" {}
  lemma AllFlag() ensures IsBooleanFlag("--all") && IsLongFlag("--all") && '=' !in "--all" {}

  /** index.test.ts: `add-all --dry-run`. */
  lemma ParseAddAllDryRunExample()
    ensures ParseArgs(["add-all", "--dry-run"]).command == AddAll
    ensures ParseArgs(["add-all", "--dry-run"]).dryRun
  {
    DryRunFlag();
    BooleanFlagSecond("add-all", "--dry-run");
  }

  /** index.test.ts: `--dry-run` after a name. */
  lemma ParseDryRunExample()
    ensures ParseArgs(["my-project", "--dry-run"]).dryRun
  {
    DryRunFlag();
    BooleanFlagSecond("my-project", "--dry-run");
  }

  /** index.test.ts: `--no-install`. */
  lemma ParseNoInstallExample()
    ensures ParseArgs(["my-project", "--no-install"]).noInstall
  {
    NoInstallFlag();
    BooleanFlagSecond("my-project", "--no-install");
  }

  /** index.test.ts: `--use-config`. */
  lemma ParseUseConfigExample()
    ensures ParseArgs(["my-project", "--use-config"]).useConfig
  {
    UseConfigFlag();
    BooleanFlagSecond("my-project", "--use-config");
  }

  /** index.test.ts: `--all`. */
  lemma ParseAllExample()
    ensures ParseArgs(["my-project", "--all"]).all
  {
    AllFlag();
    BooleanFlagSecond("my-project", "--all");
  }

  /** A flag value between double quotes loses its quotes. */
  lemma QuotedFlag(name: string, v: string)
    requires '=' !in name && '=' !in v && '"' !in v
    ensures FlagName(name + ['='] + ("\"" + v + "\"")) == name
    ensures FlagValue(name + ['='] + ("\"" + v + "\"")) == v
  {
    var q := "\"" + v + "\"";
    SplitAtSeparator(name, q, '=');
    SplitWithoutSeparator(name, '=');
    SplitWithoutSeparator(q, '=');
    RemoveCharAppend("\"" + v, "\"", '"');
    RemoveCharAppend("\"", v, '"');
    RemoveAbsentChar(v, '"');
    assert RemoveChar("\"", '"') == "";
  }

  /** The test's `--components` token cut at its `=`. */
  lemma QuotedPieces()
    ensures "--components=\"button,card,input\"" == "--components" + ['='] + ("\"" + "button,card,input" + "\"")
  {
  }

  /** Its name and value contain no `=`, and the value no quote. */
  lemma QuotedParts()
    ensures '=' !in "--components" && '=' !in "button,card,input" && '"' !in "button,card,input"
    ensures IsLongFlag("--components=\"button,card,input\"")
  {
  }

  /** index.test.ts: the quoted `--components` value is kept without its quotes. */
  lemma ParseComponentsFlagExample()
    ensures ParseArgs(["my-project", "--components=\"button,card,input\""]).components == Some("button,card,input")
  {
    var tokens := ["my-project", "--components=\"button,card,input\""];
    QuotedPieces();
    QuotedParts();
    QuotedFlag("--components", "button,card,input");
    assert tokens[2..] == [];
    ParseArgsComponents(tokens, 1);
  }
}
