/** The pure input handling of src/utils.ts: normalising component names,
    parsing a comma-separated component list, validating a project name,
    and parsing the command-line tokens. */
module Utils {
  import opened Types
  import opened Text

  // ===========================================================================
  // normalizeComponentName

  /** `toLowerCase` restricted to ASCII letters. */
  function ToLowerAscii(c: char): (l: char)
    ensures 'A' <= c <= 'Z' ==> 'a' <= l <= 'z' && l as int == c as int + 32
    ensures !('A' <= c <= 'Z') ==> l == c
  {
    if 'A' <= c <= 'Z' then (c as int - 'A' as int + 'a' as int) as char else c
  }

  /** `toLowerCase`, character by character. */
  function LowerCase(s: string): (r: string)
  {
    seq(|s|, i requires 0 <= i < |s| => ToLowerAscii(s[i]))
  }

  /** What one character contributes to `replace(/\s+/g, '-')`: a hyphen when it
      opens a white-space run, nothing inside a run, and itself otherwise. */
  function Emitted(c: char, inRun: bool): (e: string)
    ensures |e| <= 1
    ensures !IsWhitespace(c) ==> e == [c]
    ensures forall x :: x in e ==> !IsWhitespace(x)
  {
    if IsWhitespace(c) then (if inRun then [] else "-") else [c]
  }

  /** `replace(/\s+/g, '-')`: each maximal run of white space becomes one hyphen.
      `inRun` says whether the character before `s` was white space. */
  function HyphenateWhitespace(s: string, inRun: bool): (r: string)
    ensures |r| <= |s|
    ensures forall x :: x in r ==> !IsWhitespace(x)
    ensures (forall c :: c in s ==> !IsWhitespace(c)) ==> r == s
    decreases |s|
  {
    if s == [] then []
    else
      assert s == [s[0]] + s[1..];
      Emitted(s[0], inRun) + HyphenateWhitespace(s[1..], IsWhitespace(s[0]))
  }

  /** `replace(/[^a-z0-9-]/g, '')`: keeps identifier characters, in order. */
  function KeepIdentifierChars(s: string): (r: string)
    ensures |r| <= |s|
    ensures IsIdentifier(r)
    ensures forall x :: x in r ==> x in s
    ensures forall x :: x in s && IsIdentifierChar(x) ==> x in r
    ensures IsIdentifier(s) ==> r == s
    decreases |s|
  {
    if s == [] then []
    else
      assert s == [s[0]] + s[1..];
      (if IsIdentifierChar(s[0]) then [s[0]] else []) + KeepIdentifierChars(s[1..])
  }

  /** Lower-cases, turns white-space runs into hyphens and strips everything
      outside `[a-z0-9-]`. The result is a canonical identifier no longer than
      the input, and an identifier is left as it is. */
  function NormalizeComponentName(name: string): (r: string)
    ensures IsIdentifier(r)
    ensures |r| <= |name|
    ensures IsIdentifier(name) ==> r == name
  {
    var lowered := LowerCase(name);
    assert IsIdentifier(name) ==> lowered == name by {
      if IsIdentifier(name) {
        assert forall i :: 0 <= i < |name| ==> name[i] in name;
      }
    }
    KeepIdentifierChars(HyphenateWhitespace(lowered, false))
  }

  /** Whether a white-space run is open after reading `s`, starting with `inRun`. */
  function RunAfter(s: string, inRun: bool): bool
  {
    if s == [] then inRun else IsWhitespace(s[|s| - 1])
  }

  lemma {:induction false} LowerCaseAppend(a: string, b: string)
    ensures LowerCase(a + b) == LowerCase(a) + LowerCase(b)
  {
  }

  lemma {:induction false} HyphenateAppend(a: string, b: string, inRun: bool)
    ensures HyphenateWhitespace(a + b, inRun) == HyphenateWhitespace(a, inRun) + HyphenateWhitespace(b, RunAfter(a, inRun))
    decreases |a|
  {
    if a == [] {
      assert a + b == b;
    } else {
      var next := IsWhitespace(a[0]);
      var ab := a + b;
      assert ab[1..] == a[1..] + b;
      HyphenateAppend(a[1..], b, next);
      var e := Emitted(a[0], inRun);
      var h := HyphenateWhitespace(a[1..], next);
      var t := HyphenateWhitespace(b, RunAfter(a[1..], next));
      assert HyphenateWhitespace(ab, inRun) == e + (h + t);
      assert HyphenateWhitespace(a, inRun) == e + h;
      AppendAssoc(e, h, t);
      RunAfterTail(a, inRun);
    }
  }

  lemma RunAfterTail(a: string, inRun: bool)
    requires a != []
    ensures RunAfter(a[1..], IsWhitespace(a[0])) == RunAfter(a, inRun)
  {
  }

  lemma {:induction false} KeepAppend(a: string, b: string)
    ensures KeepIdentifierChars(a + b) == KeepIdentifierChars(a) + KeepIdentifierChars(b)
    decreases |a|
  {
    if a == [] {
      assert a + b == b;
    } else {
      assert (a + b)[0] == a[0];
      assert (a + b)[1..] == a[1..] + b;
      KeepAppend(a[1..], b);
    }
  }

  /** A single character is kept exactly when it is an identifier character;
      with KeepAppend this fixes the filter on every string. */
  lemma KeepOne(c: char)
    ensures KeepIdentifierChars([c]) == if IsIdentifierChar(c) then [c] else []
  {
    assert [c][1..] == [];
  }

  /** A non-empty white-space run becomes a single hyphen, or nothing when a
      run was already open before it. */
  lemma {:induction false} HyphenateRun(w: string, inRun: bool)
    requires w != [] && forall i :: 0 <= i < |w| ==> IsWhitespace(w[i])
    ensures HyphenateWhitespace(w, inRun) == if inRun then [] else "-"
    decreases |w|
  {
    if |w| > 1 {
      HyphenateRun(w[1..], true);
    }
  }

  /** A white-space run on its own normalizes to one hyphen. */
  lemma NormalizeRun(w: string)
    requires w != [] && forall i :: 0 <= i < |w| ==> IsWhitespace(w[i])
    ensures NormalizeComponentName(w) == "-"
  {
    var lw := LowerCase(w);
    forall i | 0 <= i < |w| ensures lw[i] == w[i] {
      LowerKeepsWhitespace(w[i]);
    }
    assert lw == w;
    HyphenateRun(w, false);
    KeepOne('-');
  }

  /** A character that is neither white space nor, once lower-cased, an identifier character normalizes to nothing. */
  lemma NormalizeDropped(c: char)
    requires !IsWhitespace(c) && !IsIdentifierChar(ToLowerAscii(c))
    ensures NormalizeComponentName([c]) == []
  {
    var l := ToLowerAscii(c);
    LowerKeepsWhitespace(c);
    assert LowerCase([c]) == [l];
    assert HyphenateWhitespace([l], false) == [l] by {
      assert forall x :: x in [l] ==> !IsWhitespace(x);
    }
    KeepOne(l);
  }

  /** Normalization works piece by piece, as long as the cut does not fall inside a white-space run. */
  lemma NormalizeAppend(a: string, b: string)
    requires a == [] || b == [] || !IsWhitespace(a[|a| - 1]) || !IsWhitespace(b[0])
    ensures NormalizeComponentName(a + b) == NormalizeComponentName(a) + NormalizeComponentName(b)
  {
    LowerCaseAppend(a, b);
    var la, lb := LowerCase(a), LowerCase(b);
    HyphenateAppend(la, lb, false);
    if la != [] && lb != [] {
      LowerKeepsWhitespace(a[|a| - 1]);
      LowerKeepsWhitespace(b[0]);
    }
    HyphenateFreshStart(lb, RunAfter(la, false));
    var ha, hb := HyphenateWhitespace(la, false), HyphenateWhitespace(lb, false);
    KeepAppend(ha, hb);
    NormalizeStages(a + b);
    NormalizeStages(a);
    NormalizeStages(b);
  }

  /** A white-space run between two pieces that do not touch it with white
      space of their own becomes exactly one hyphen between their normal forms. */
  lemma NormalizeAtWhitespaceRun(a: string, w: string, b: string)
    requires w != [] && forall i :: 0 <= i < |w| ==> IsWhitespace(w[i])
    requires a == [] || !IsWhitespace(a[|a| - 1])
    requires b == [] || !IsWhitespace(b[0])
    ensures NormalizeComponentName(a + w + b) == NormalizeComponentName(a) + "-" + NormalizeComponentName(b)
  {
    var na, nb := NormalizeComponentName(a), NormalizeComponentName(b);
    assert a + w + b == a + (w + b);
    assert (w + b)[0] == w[0];
    NormalizeAppend(a, w + b);
    NormalizeAppend(w, b);
    NormalizeRun(w);
    assert NormalizeComponentName(w + b) == "-" + nb;
    AppendAssoc(na, "-", nb);
  }

  /** A character outside the identifier alphabet, once lower-cased, and not
      white space vanishes: the pieces around it are normalized independently. */
  lemma NormalizeAtDroppedChar(a: string, c: char, b: string)
    requires !IsWhitespace(c) && !IsIdentifierChar(ToLowerAscii(c))
    ensures NormalizeComponentName(a + [c] + b) == NormalizeComponentName(a) + NormalizeComponentName(b)
  {
    var na, nb := NormalizeComponentName(a), NormalizeComponentName(b);
    assert a + [c] + b == a + ([c] + b);
    assert ([c] + b)[0] == c;
    NormalizeAppend(a, [c] + b);
    NormalizeAppend([c], b);
    NormalizeDropped(c);
    assert NormalizeComponentName([c] + b) == nb;
  }

  lemma NormalizeStages(s: string)
    ensures NormalizeComponentName(s) == KeepIdentifierChars(HyphenateWhitespace(LowerCase(s), false))
  {
  }

  lemma LowerKeepsWhitespace(c: char)
    ensures IsWhitespace(ToLowerAscii(c)) == IsWhitespace(c)
  {
  }

  /** Where `s` does not begin with white space, whether a run was open before it does not matter. */
  lemma HyphenateFreshStart(s: string, inRun: bool)
    requires inRun ==> s == [] || !IsWhitespace(s[0])
    ensures HyphenateWhitespace(s, inRun) == HyphenateWhitespace(s, false)
  {
  }

  /** Normalizing twice is normalizing once. */
  lemma NormalizeIdempotent(name: string)
    ensures NormalizeComponentName(NormalizeComponentName(name)) == NormalizeComponentName(name)
  {
  }

  /** The fixed points of normalization are exactly the identifiers. */
  lemma NormalizeFixedPoints(name: string)
    ensures NormalizeComponentName(name) == name <==> IsIdentifier(name)
  {
  }

  // ===========================================================================
  // parseComponentsString

  /** A non-empty piece with no white space at either end. */
  predicate Trimmed(p: string)
  {
    p != [] && !IsWhitespace(p[0]) && !IsWhitespace(p[|p| - 1])
  }

  /** The pieces that are not empty once trimmed, trimmed, in order. */
  function TrimmedNonEmpty(pieces: seq<string>): (r: seq<string>)
    ensures |r| <= |pieces|
    ensures forall p :: p in r ==> Trimmed(p)
    decreases |pieces|
  {
    if pieces == [] then []
    else
      var t := Trim(pieces[0]);
      var lead: seq<string> := if t == [] then [] else [t];
      var rest := TrimmedNonEmpty(pieces[1..]);
      assert forall p :: p in lead ==> Trimmed(p);
      lead + rest
  }

  function NormalizeEach(names: seq<string>): (r: seq<string>)
    ensures |r| == |names|
    ensures forall i :: 0 <= i < |names| ==> r[i] == NormalizeComponentName(names[i])
  {
    seq(|names|, i requires 0 <= i < |names| => NormalizeComponentName(names[i]))
  }

  /** Splits on commas, trims, drops empty pieces and normalizes the rest;
      every name it returns is an identifier. */
  function ParseComponentsString(s: string): (r: seq<string>)
    ensures forall name :: name in r ==> IsIdentifier(name)
  {
    NormalizeEach(TrimmedNonEmpty(Split(s, ',')))
  }

  /** There are at most as many names as comma-separated pieces. */
  lemma ParseComponentsBound(s: string)
    ensures |ParseComponentsString(s)| <= multiset(s)[','] + 1
  {
    SplitCount(s, ',');
  }

  /** One piece is kept, trimmed, exactly when it is not blank; with
      TrimmedNonEmptyAppend this fixes the filter on every list, in order. */
  lemma TrimmedNonEmptyOne(x: string)
    ensures TrimmedNonEmpty([x]) == if Trim(x) == [] then [] else [Trim(x)]
  {
    assert [x][1..] == [];
  }

  lemma {:induction false} TrimmedNonEmptyAppend(a: seq<string>, b: seq<string>)
    ensures TrimmedNonEmpty(a + b) == TrimmedNonEmpty(a) + TrimmedNonEmpty(b)
    decreases |a|
  {
    if a == [] {
      assert a + b == b;
    } else {
      var ab := a + b;
      assert ab[0] == a[0] && ab[1..] == a[1..] + b;
      TrimmedNonEmptyAppend(a[1..], b);
      var t := Trim(a[0]);
      var lead: seq<string> := if t == [] then [] else [t];
      var h, k := TrimmedNonEmpty(a[1..]), TrimmedNonEmpty(b);
      assert TrimmedNonEmpty(ab) == lead + (h + k);
      assert TrimmedNonEmpty(a) == lead + h;
      AppendAssoc(lead, h, k);
    }
  }

  /** A list without commas yields its trimmed, normalized self, or nothing when it is blank. */
  lemma ParseOneComponent(s: string)
    requires ',' !in s
    ensures Trim(s) == [] ==> ParseComponentsString(s) == []
    ensures Trim(s) != [] ==> ParseComponentsString(s) == [NormalizeComponentName(Trim(s))]
  {
    SplitWithoutSeparator(s, ',');
  }

  /** Parsing a list joined at a comma is parsing each side and concatenating,
      so, with ParseOneComponent, the parse of any list is fixed piece by piece in input order. */
  lemma ParseComponentsAtComma(a: string, b: string)
    ensures ParseComponentsString(a + "," + b) == ParseComponentsString(a) + ParseComponentsString(b)
  {
    assert a + "," + b == a + [','] + b;
    SplitAtSeparator(a, b, ',');
    var ta, tb := TrimmedNonEmpty(Split(a, ',')), TrimmedNonEmpty(Split(b, ','));
    TrimmedNonEmptyAppend(Split(a, ','), Split(b, ','));
    NormalizeEachAppend(ta, tb);
  }

  lemma NormalizeEachAppend(a: seq<string>, b: seq<string>)
    ensures NormalizeEach(a + b) == NormalizeEach(a) + NormalizeEach(b)
  {
  }

  // ===========================================================================
  // validateProjectName

  /** States of a matcher for `^[a-z0-9][a-z0-9-]*[a-z0-9]$`, named after what
      has been read so far. */
  datatype NameState =
    | Start            // nothing
    | OneChar          // a single `[a-z0-9]`
    | Accepting        // a whole match
    | EndsWithHyphen   // a match except that it ends in `-`
    | Rejected         // no extension can match

  function NameStep(st: NameState, c: char): NameState
  {
    match st
    case Start => if IsLowerAlnum(c) then OneChar else Rejected
    case OneChar | Accepting | EndsWithHyphen =>
      if IsLowerAlnum(c) then Accepting else if c == '-' then EndsWithHyphen else Rejected
    case Rejected => Rejected
  }

  predicate MatchesNameShape(s: string)
  {
    |s| >= 2 && IsLowerAlnum(s[0]) && IsLowerAlnum(s[|s| - 1]) && IsIdentifier(s)
  }

  /** The matcher's state after reading `s`, with what each state means about `s`. */
  function NameScan(s: string): (st: NameState)
    ensures st == Start <==> s == []
    ensures st == OneChar <==> |s| == 1 && IsLowerAlnum(s[0])
    ensures st == Accepting <==> MatchesNameShape(s)
    ensures st == EndsWithHyphen <==>
      |s| >= 2 && IsLowerAlnum(s[0]) && s[|s| - 1] == '-' && IsIdentifier(s)
    decreases |s|
  {
    if s == [] then Start
    else
      var prefix := s[..|s| - 1];
      assert s == prefix + [s[|s| - 1]];
      assert prefix != [] ==> prefix[0] == s[0];
      assert IsIdentifier(s) <==> IsIdentifier(prefix) && IsIdentifierChar(s[|s| - 1]);
      assert prefix != [] ==> prefix[|prefix| - 1] in prefix;
      assert |prefix| == 1 ==> prefix == [prefix[0]];
      NameStep(NameScan(prefix), s[|s| - 1])
  }

  /** The regular-expression check of a project name: at least two characters
      from `[a-z0-9-]`, beginning and ending with a letter or digit. */
  function ValidateProjectName(name: string): (ok: bool)
    ensures ok <==>
      && |name| >= 2
      && IsLowerAlnum(name[0])
      && IsLowerAlnum(name[|name| - 1])
      && forall c :: c in name ==> IsIdentifierChar(c)
  {
    NameScan(name) == Accepting && |name| > 0
  }

  // ===========================================================================
  // parseArgs

  /** The arguments before any token is read. */
  function InitialArgs(command: Command): (a: CliArgs)
    ensures a.command == command
  {
    CliArgs("", None, false, false, false, false, command)
  }

  predicate IsLongFlag(token: string)
  {
    |token| >= 2 && token[0] == '-' && token[1] == '-'
  }

  /** `const [flag, value] = arg.split('=')`: the flag is the text before the first `=`. */
  function FlagName(token: string): string
  {
    Split(token, '=')[0]
  }

  /** `value?.replace(/"/g, '') || ''`: the text between the first and the
      second `=` with every double quote removed, or empty without any `=`. */
  function FlagValue(token: string): (v: string)
    ensures '"' !in v
    ensures '=' !in token ==> v == ""
  {
    var parts := Split(token, '=');
    SplitCount(token, '=');
    if |parts| >= 2 then RemoveChar(parts[1], '"') else ""
  }

  /** Reading one token: a recognised long flag sets its field, an unrecognised
      one is ignored, and any other token becomes the project name if there is none yet. */
  function ApplyToken(acc: CliArgs, token: string): (a: CliArgs)
    ensures a.command == acc.command
  {
    if IsLongFlag(token) then
      var flag := FlagName(token);
      if flag == "--components" then acc.(components := Some(FlagValue(token)))
      else if flag == "--dry-run" then acc.(dryRun := true)
      else if flag == "--no-install" then acc.(noInstall := true)
      else if flag == "--use-config" then acc.(useConfig := true)
      else if flag == "--all" then acc.(all := true)
      else acc
    else if acc.projectName == "" then acc.(projectName := token)
    else acc
  }

  /** Reads the tokens left to right. */
  function ScanTokens(tokens: seq<string>, acc: CliArgs): (a: CliArgs)
    ensures a.command == acc.command
    decreases |tokens|
  {
    if tokens == [] then acc else ScanTokens(tokens[1..], ApplyToken(acc, tokens[0]))
  }

  predicate IsCommandToken(tokens: seq<string>)
  {
    |tokens| > 0 && tokens[0] == "add-all"
  }

  /** The tokens left after an initial `add-all` is consumed. */
  function OperandTokens(tokens: seq<string>): seq<string>
  {
    if IsCommandToken(tokens) then tokens[1..] else tokens
  }

  /** `parseArgs` over the tokens after the program name. It never fails;
      the command is `AddAll` exactly when the first token is `add-all`. */
  function ParseArgs(tokens: seq<string>): (a: CliArgs)
    ensures a.command == AddAll <==> |tokens| > 0 && tokens[0] == "add-all"
    ensures a.command == Create <==> !(|tokens| > 0 && tokens[0] == "add-all")
  {
    var command := if IsCommandToken(tokens) then AddAll else Create;
    ScanTokens(OperandTokens(tokens), InitialArgs(command))
  }

  // ---------------------------------------------------------------------------
  // what ParseArgs computes, token by token

  /** The boolean field a recognised boolean flag sets. */
  function FlagField(a: CliArgs, flag: string): bool
  {
    if flag == "--dry-run" then a.dryRun
    else if flag == "--no-install" then a.noInstall
    else if flag == "--use-config" then a.useConfig
    else if flag == "--all" then a.all
    else false
  }

  predicate IsBooleanFlag(flag: string)
  {
    flag == "--dry-run" || flag == "--no-install" || flag == "--use-config" || flag == "--all"
  }

  predicate IsRecognisedFlag(flag: string)
  {
    flag == "--components" || IsBooleanFlag(flag)
  }

  /** Some token is a long flag named `flag`. */
  predicate HasFlag(tokens: seq<string>, flag: string)
  {
    exists i :: 0 <= i < |tokens| && IsLongFlag(tokens[i]) && FlagName(tokens[i]) == flag
  }

  lemma {:induction false} ScanConcat(a: seq<string>, b: seq<string>, acc: CliArgs)
    ensures ScanTokens(a + b, acc) == ScanTokens(b, ScanTokens(a, acc))
    decreases |a|
  {
    if a == [] {
      assert a + b == b;
    } else {
      assert (a + b)[0] == a[0];
      assert (a + b)[1..] == a[1..] + b;
      ScanConcat(a[1..], b, ApplyToken(acc, a[0]));
    }
  }

  /** The first token, or one of the rest, is the flag. */
  lemma HasFlagCons(tokens: seq<string>, flag: string)
    requires tokens != []
    ensures HasFlag(tokens, flag) <==>
      (IsLongFlag(tokens[0]) && FlagName(tokens[0]) == flag) || HasFlag(tokens[1..], flag)
  {
    if HasFlag(tokens[1..], flag) {
      var i :| 0 <= i < |tokens[1..]| && IsLongFlag(tokens[1..][i]) && FlagName(tokens[1..][i]) == flag;
      assert tokens[i + 1] == tokens[1..][i];
    }
    if HasFlag(tokens, flag) {
      var i :| 0 <= i < |tokens| && IsLongFlag(tokens[i]) && FlagName(tokens[i]) == flag;
      if i > 0 {
        assert tokens[1..][i - 1] == tokens[i];
      }
    }
  }

  lemma ApplyTokenBooleanFlag(acc: CliArgs, token: string, flag: string)
    requires IsBooleanFlag(flag)
    ensures FlagField(ApplyToken(acc, token), flag) <==>
      FlagField(acc, flag) || (IsLongFlag(token) && FlagName(token) == flag)
  {
    var a := ApplyToken(acc, token);
    if !IsLongFlag(token) {
      assert a.(projectName := acc.projectName) == acc;
    } else if FlagName(token) == "--components" {
      assert a == acc.(components := Some(FlagValue(token)));
    } else if FlagName(token) != flag {
      assert FlagField(a, flag) == FlagField(acc, flag);
    }
  }

  lemma {:induction false} ScanBooleanFlag(tokens: seq<string>, acc: CliArgs, flag: string)
    requires IsBooleanFlag(flag)
    ensures FlagField(ScanTokens(tokens, acc), flag) <==> FlagField(acc, flag) || HasFlag(tokens, flag)
    decreases |tokens|
  {
    if tokens != [] {
      var next := ApplyToken(acc, tokens[0]);
      ScanBooleanFlag(tokens[1..], next, flag);
      ApplyTokenBooleanFlag(acc, tokens[0], flag);
      HasFlagCons(tokens, flag);
    }
  }

  predicate NotAName(token: string)
  {
    token == "" || IsLongFlag(token)
  }

  lemma {:induction false} ScanKeepsName(tokens: seq<string>, acc: CliArgs)
    requires acc.projectName != ""
    ensures ScanTokens(tokens, acc).projectName == acc.projectName
    decreases |tokens|
  {
    if tokens != [] {
      var next := ApplyToken(acc, tokens[0]);
      assert next.projectName == acc.projectName;
      ScanKeepsName(tokens[1..], next);
    }
  }

  lemma {:induction false} ScanFindsNoName(tokens: seq<string>, acc: CliArgs)
    requires acc.projectName == ""
    requires forall t :: t in tokens ==> NotAName(t)
    ensures ScanTokens(tokens, acc).projectName == ""
    decreases |tokens|
  {
    if tokens != [] {
      assert tokens[0] in tokens;
      assert forall t :: t in tokens[1..] ==> t in tokens;
      ScanFindsNoName(tokens[1..], ApplyToken(acc, tokens[0]));
    }
  }

  lemma {:induction false} ScanKeepsComponents(tokens: seq<string>, acc: CliArgs)
    requires !HasFlag(tokens, "--components")
    ensures ScanTokens(tokens, acc).components == acc.components
    decreases |tokens|
  {
    if tokens != [] {
      HasFlagCons(tokens, "--components");
      ScanKeepsComponents(tokens[1..], ApplyToken(acc, tokens[0]));
    }
  }

  lemma {:induction false} HasFlagOperands(tokens: seq<string>, flag: string)
    ensures HasFlag(OperandTokens(tokens), flag) <==> HasFlag(tokens, flag)
  {
    if IsCommandToken(tokens) {
      var ops := OperandTokens(tokens);
      assert !IsLongFlag(tokens[0]);
      if HasFlag(tokens, flag) {
        var i :| 0 <= i < |tokens| && IsLongFlag(tokens[i]) && FlagName(tokens[i]) == flag;
        assert ops[i - 1] == tokens[i];
      }
      if HasFlag(ops, flag) {
        var i :| 0 <= i < |ops| && IsLongFlag(ops[i]) && FlagName(ops[i]) == flag;
        assert tokens[i + 1] == ops[i];
      }
    }
  }

  /** A boolean flag is set exactly when some long-flag token's name before `=` is that flag. */
  lemma ParseArgsBooleanFlag(tokens: seq<string>, flag: string)
    requires IsBooleanFlag(flag)
    ensures FlagField(ParseArgs(tokens), flag) <==> HasFlag(tokens, flag)
  {
    var command := if IsCommandToken(tokens) then AddAll else Create;
    ScanBooleanFlag(OperandTokens(tokens), InitialArgs(command), flag);
    HasFlagOperands(tokens, flag);
  }

  /** The project name is the first operand that is neither empty nor a long flag;
      a leading `add-all` is not an operand. */
  lemma ParseArgsProjectName(tokens: seq<string>, i: nat)
    requires i < |OperandTokens(tokens)|
    requires !NotAName(OperandTokens(tokens)[i])
    requires forall j :: 0 <= j < i ==> NotAName(OperandTokens(tokens)[j])
    ensures ParseArgs(tokens).projectName == OperandTokens(tokens)[i]
  {
    var ops := OperandTokens(tokens);
    var command := if IsCommandToken(tokens) then AddAll else Create;
    var init := InitialArgs(command);
    assert ops == ops[..i] + [ops[i]] + ops[i + 1..];
    ScanConcat(ops[..i] + [ops[i]], ops[i + 1..], init);
    ScanConcat(ops[..i], [ops[i]], init);
    forall t | t in ops[..i] ensures NotAName(t) {
      var j :| 0 <= j < i && ops[..i][j] == t;
    }
    ScanFindsNoName(ops[..i], init);
    var named := ScanTokens([ops[i]], ScanTokens(ops[..i], init));
    assert named.projectName == ops[i];
    ScanKeepsName(ops[i + 1..], named);
  }

  /** Without such an operand the project name stays empty. */
  lemma ParseArgsNoProjectName(tokens: seq<string>)
    requires forall t :: t in OperandTokens(tokens) ==> NotAName(t)
    ensures ParseArgs(tokens).projectName == ""
  {
    var command := if IsCommandToken(tokens) then AddAll else Create;
    ScanFindsNoName(OperandTokens(tokens), InitialArgs(command));
  }

  /** The components value comes from the last `--components` token; without one it is absent. */
  lemma ParseArgsComponents(tokens: seq<string>, i: nat)
    requires i < |tokens|
    requires IsLongFlag(tokens[i]) && FlagName(tokens[i]) == "--components"
    requires !HasFlag(tokens[i + 1..], "--components")
    ensures ParseArgs(tokens).components == Some(FlagValue(tokens[i]))
  {
    var ops := OperandTokens(tokens);
    var command := if IsCommandToken(tokens) then AddAll else Create;
    var init := InitialArgs(command);
    // the command token is not a flag, so `i` is an operand position
    var k := if IsCommandToken(tokens) then i - 1 else i;
    assert IsCommandToken(tokens) ==> i > 0;
    assert ops[k] == tokens[i];
    assert ops[k + 1..] == tokens[i + 1..];
    assert ops == ops[..k] + [ops[k]] + ops[k + 1..];
    ScanConcat(ops[..k] + [ops[k]], ops[k + 1..], init);
    ScanConcat(ops[..k], [ops[k]], init);
    ScanKeepsComponents(ops[k + 1..], ScanTokens(ops[..k + 1], init));
    assert ops[..k] + [ops[k]] == ops[..k + 1];
  }

  lemma ParseArgsNoComponents(tokens: seq<string>)
    requires !HasFlag(tokens, "--components")
    ensures ParseArgs(tokens).components == None
  {
    var command := if IsCommandToken(tokens) then AddAll else Create;
    HasFlagOperands(tokens, "--components");
    ScanKeepsComponents(OperandTokens(tokens), InitialArgs(command));
  }

  /** An unrecognised long flag anywhere after the first token changes nothing. */
  lemma ParseArgsIgnoresUnknownFlag(before: seq<string>, token: string, after: seq<string>)
    requires |before| >= 1
    requires IsLongFlag(token) && !IsRecognisedFlag(FlagName(token))
    ensures ParseArgs(before + [token] + after) == ParseArgs(before + after)
  {
    var with := before + [token] + after;
    var without := before + after;
    assert with[0] == before[0] && without[0] == before[0];
    var command := if IsCommandToken(without) then AddAll else Create;
    var init := InitialArgs(command);
    var pre := if IsCommandToken(without) then before[1..] else before;
    assert OperandTokens(with) == pre + [token] + after;
    assert OperandTokens(without) == pre + after;
    ScanConcat(pre + [token], after, init);
    ScanConcat(pre, [token], init);
    ScanConcat(pre, after, init);
  }

  /** The value of `--components=...` is the text after the first `=`, with
      double quotes removed, when there is no second `=`. */
  lemma FlagValueAfterEquals(flag: string, value: string)
    requires '=' !in flag && '=' !in value
    ensures FlagName(flag + "=" + value) == flag
    ensures FlagValue(flag + "=" + value) == RemoveChar(value, '"')
  {
    var token := flag + "=" + value;
    assert token == flag + ['='] + value;
    SplitAtSeparator(flag, value, '=');
    SplitWithoutSeparator(flag, '=');
    SplitWithoutSeparator(value, '=');
    assert Split(token, '=') == [flag, value];
  }

  /** With a second `=`, the value stops there: it is the text between the first and the second `=`. */
  lemma FlagValueStopsAtSecondEquals(flag: string, value: string, rest: string)
    requires '=' !in flag && '=' !in value
    ensures FlagName(flag + "=" + value + "=" + rest) == flag
    ensures FlagValue(flag + "=" + value + "=" + rest) == RemoveChar(value, '"')
  {
    var token := flag + "=" + value + "=" + rest;
    assert token == flag + ['='] + (value + ['='] + rest);
    SplitFirstTwo(flag, value, rest);
  }

  lemma SplitFirstTwo(flag: string, value: string, rest: string)
    requires '=' !in flag && '=' !in value
    ensures |Split(flag + ['='] + (value + ['='] + rest), '=')| >= 2
    ensures Split(flag + ['='] + (value + ['='] + rest), '=')[0] == flag
    ensures Split(flag + ['='] + (value + ['='] + rest), '=')[1] == value
  {
    var tail := value + ['='] + rest;
    SplitAtSeparator(flag, tail, '=');
    SplitAtSeparator(value, rest, '=');
    SplitWithoutSeparator(flag, '=');
    SplitWithoutSeparator(value, '=');
  }
}
