/** The fixed data of src/constants.ts: the shadcn/ui component catalog, the
    name of the persisted configuration file and the default shadcn version. */
module Constants {
  import opened Types
  import opened Text
  import opened Utils

  const ConfigFileName: string := "orbit.config.json"
  const DefaultShadcnVersion: string := "latest"

  // The catalog is written in four consecutive slices so that facts about
  // each slice can be checked on its own; `Catalog` is their concatenation.

  const CatalogA: seq<ComponentOption> := [
    ComponentOption("Accordion", "accordion", "Collapsible content sections"),
    ComponentOption("Alert", "alert", "Important messages and notifications"),
    ComponentOption("Alert Dialog", "alert-dialog", "Modal dialogs for important actions"),
    ComponentOption("Aspect Ratio", "aspect-ratio", "Maintain responsive aspect ratios"),
    ComponentOption("Avatar", "avatar", "User profile images"),
    ComponentOption("Badge", "badge", "Small status indicators"),
    ComponentOption("Breadcrumb", "breadcrumb", "Navigation breadcrumbs"),
    ComponentOption("Button", "button", "Interactive buttons with variants"),
    ComponentOption("Calendar", "calendar", "Date selection component"),
    ComponentOption("Card", "card", "Content containers with headers"),
    ComponentOption("Carousel", "carousel", "Image or content slideshows"),
    ComponentOption("Chart", "chart", "Data visualization charts")
  ]

  const CatalogB: seq<ComponentOption> := [
    ComponentOption("Checkbox", "checkbox", "Boolean input controls"),
    ComponentOption("Collapsible", "collapsible", "Expandable content sections"),
    ComponentOption("Command", "command", "Command palette interface"),
    ComponentOption("Context Menu", "context-menu", "Right-click context menus"),
    ComponentOption("Dialog", "dialog", "Modal overlay dialogs"),
    ComponentOption("Drawer", "drawer", "Slide-out side panels"),
    ComponentOption("Dropdown Menu", "dropdown-menu", "Toggleable menu lists"),
    ComponentOption("React Hook Form", "form", "Form validation and handling"),
    ComponentOption("Hover Card", "hover-card", "Rich preview cards"),
    ComponentOption("Input", "input", "Text input fields"),
    ComponentOption("Input OTP", "input-otp", "One-time password input"),
    ComponentOption("Label", "label", "Form field labels")
  ]

  const CatalogC: seq<ComponentOption> := [
    ComponentOption("Menubar", "menubar", "Horizontal navigation menus"),
    ComponentOption("Navigation Menu", "navigation-menu", "Multi-level navigation"),
    ComponentOption("Pagination", "pagination", "Page navigation controls"),
    ComponentOption("Popover", "popover", "Floating content containers"),
    ComponentOption("Progress", "progress", "Loading and progress indicators"),
    ComponentOption("Radio Group", "radio-group", "Single selection controls"),
    ComponentOption("Resizable", "resizable", "Resizable panels and layouts"),
    ComponentOption("Scroll Area", "scroll-area", "Custom scrollable areas"),
    ComponentOption("Select", "select", "Dropdown selection controls"),
    ComponentOption("Separator", "separator", "Visual content dividers"),
    ComponentOption("Sheet", "sheet", "Slide-out panels")
  ]

  const CatalogD: seq<ComponentOption> := [
    ComponentOption("Sidebar", "sidebar", "Sidebar navigation component"),
    ComponentOption("Skeleton", "skeleton", "Loading placeholders"),
    ComponentOption("Slider", "slider", "Range input controls"),
    ComponentOption("Sonner", "sonner", "Toast notifications"),
    ComponentOption("Switch", "switch", "Toggle switch controls"),
    ComponentOption("Table", "table", "Data table components"),
    ComponentOption("Tabs", "tabs", "Tabbed content sections"),
    ComponentOption("Textarea", "textarea", "Multi-line text inputs"),
    ComponentOption("Toggle", "toggle", "Toggle button controls"),
    ComponentOption("Toggle Group", "toggle-group", "Grouped toggle buttons"),
    ComponentOption("Tooltip", "tooltip", "Hover information displays")
  ]

  /** `SHADCN_COMPONENTS`, in the listed order. */
  const Catalog: seq<ComponentOption> := CatalogA + CatalogB + CatalogC + CatalogD

  /** `components.map(c => c.value)`. */
  function ValuesOf(cs: seq<ComponentOption>): (vs: seq<string>)
    ensures |vs| == |cs|
    ensures forall i :: 0 <= i < |cs| ==> vs[i] == cs[i].value
  {
    seq(|cs|, i requires 0 <= i < |cs| => cs[i].value)
  }

  /** The catalog's identifiers, in catalog order. */
  const CatalogValues: seq<string> := ValuesOf(Catalog)

  lemma ValuesOfAppend(a: seq<ComponentOption>, b: seq<ComponentOption>)
    ensures ValuesOf(a + b) == ValuesOf(a) + ValuesOf(b)
  {
  }

  // ---------------------------------------------------------------------------
  // code-point order on strings, used to show that the values are distinct

  /** `a` and `b` agree before position `k`, and there `a` ends while `b` goes on,
      or `a` has the smaller character. */
  predicate LessAt(a: string, b: string, k: nat)
  {
    && k <= |a| && k <= |b|
    && (forall j :: 0 <= j < k ==> a[j] == b[j])
    && (if k == |a| then k < |b| else k < |b| && a[k] < b[k])
  }

  /** `a` comes strictly before `b` in code-point order. */
  ghost predicate Less(a: string, b: string)
  {
    exists k: nat :: LessAt(a, b, k)
  }

  lemma LessIrreflexive(a: string)
    ensures !Less(a, a)
  {
  }

  lemma LessTransitive(a: string, b: string, c: string)
    requires Less(a, b) && Less(b, c)
    ensures Less(a, c)
  {
    var k1: nat :| LessAt(a, b, k1);
    var k2: nat :| LessAt(b, c, k2);
    if k1 <= k2 {
      assert LessAt(a, c, k1);
    } else {
      assert LessAt(a, c, k2);
    }
  }

  /** Each value is strictly smaller than the next. */
  ghost predicate Ascending(vs: seq<string>)
  {
    forall i :: 0 <= i < |vs| - 1 ==> Less(vs[i], vs[i + 1])
  }

  /** An ascending sequence is ordered between any two positions, so it has no repeats. */
  lemma {:induction false} AscendingOrdered(vs: seq<string>, i: nat, j: nat)
    requires Ascending(vs)
    requires i < j < |vs|
    ensures Less(vs[i], vs[j])
    ensures vs[i] != vs[j]
    decreases j - i
  {
    if j > i + 1 {
      AscendingOrdered(vs, i, j - 1);
      LessTransitive(vs[i], vs[j - 1], vs[j]);
    }
    if vs[i] == vs[j] {
      LessIrreflexive(vs[i]);
    }
  }

  lemma AscendingAppend(a: seq<string>, b: seq<string>)
    requires Ascending(a) && Ascending(b)
    requires a != [] && b != [] && Less(a[|a| - 1], b[0])
    ensures Ascending(a + b)
  {
    var ab := a + b;
    forall i | 0 <= i < |ab| - 1
      ensures Less(ab[i], ab[i + 1])
    {
      if i + 1 < |a| {
        assert ab[i] == a[i] && ab[i + 1] == a[i + 1];
      } else if i + 1 == |a| {
        assert ab[i] == a[|a| - 1] && ab[i + 1] == b[0];
      } else {
        assert ab[i] == b[i - |a|] && ab[i + 1] == b[i - |a| + 1];
      }
    }
  }

  // ---------------------------------------------------------------------------
  // facts about each slice, checked on the literals

  /** The value is a project-name-shaped identifier, and not the `all` sentinel. */
  predicate GoodValue(v: string)
  {
    MatchesNameShape(v) && v != "all"
  }

  predicate AllGood(vs: seq<string>)
  {
    forall v :: v in vs ==> GoodValue(v)
  }

  lemma AllGoodAppend(a: seq<string>, b: seq<string>)
    requires AllGood(a) && AllGood(b)
    ensures AllGood(a + b)
  {
  }

  lemma ValuesA()
    ensures ValuesOf(CatalogA) == ["accordion", "alert", "alert-dialog", "aspect-ratio", "avatar", "badge"]
                                + ["breadcrumb", "button", "calendar", "card", "carousel", "chart"]
  {
  }

  lemma ValuesB()
    ensures ValuesOf(CatalogB) == ["checkbox", "collapsible", "command", "context-menu", "dialog", "drawer"]
                                + ["dropdown-menu", "form", "hover-card", "input", "input-otp", "label"]
  {
  }

  lemma ValuesC()
    ensures ValuesOf(CatalogC) == ["menubar", "navigation-menu", "pagination", "popover", "progress", "radio-group"]
                                + ["resizable", "scroll-area", "select", "separator", "sheet"]
  {
  }

  lemma ValuesD()
    ensures ValuesOf(CatalogD) == ["sidebar", "skeleton", "slider", "sonner", "switch", "table"]
                                + ["tabs", "textarea", "toggle", "toggle-group", "tooltip"]
  {
  }

  lemma GoodA1() ensures forall v :: v in ["accordion", "alert", "alert-dialog", "aspect-ratio", "avatar", "badge"] ==> GoodValue(v) {}
  lemma GoodA2() ensures forall v :: v in ["breadcrumb", "button", "calendar", "card", "carousel", "chart"] ==> GoodValue(v) {}
  lemma GoodB1() ensures forall v :: v in ["checkbox", "collapsible", "command", "context-menu", "dialog", "drawer"] ==> GoodValue(v) {}
  lemma GoodB2() ensures forall v :: v in ["dropdown-menu", "form", "hover-card", "input", "input-otp", "label"] ==> GoodValue(v) {}
  lemma GoodC1() ensures forall v :: v in ["menubar", "navigation-menu", "pagination", "popover", "progress", "radio-group"] ==> GoodValue(v) {}
  lemma GoodC2() ensures forall v :: v in ["resizable", "scroll-area", "select", "separator", "sheet"] ==> GoodValue(v) {}
  lemma GoodD1() ensures forall v :: v in ["sidebar", "skeleton", "slider", "sonner", "switch", "table"] ==> GoodValue(v) {}
  lemma GoodD2() ensures forall v :: v in ["tabs", "textarea", "toggle", "toggle-group", "tooltip"] ==> GoodValue(v) {}

  // The position at which each value first differs from the next one.
  lemma OrderA1()
    ensures LessAt("accordion", "alert", 1) && LessAt("alert", "alert-dialog", 5)
    ensures LessAt("alert-dialog", "aspect-ratio", 1) && LessAt("aspect-ratio", "avatar", 1)
    ensures LessAt("avatar", "badge", 0) && LessAt("badge", "breadcrumb", 1)
  {
  }

  lemma OrderA2()
    ensures LessAt("breadcrumb", "button", 1) && LessAt("button", "calendar", 0)
    ensures LessAt("calendar", "card", 2) && LessAt("card", "carousel", 3)
    ensures LessAt("carousel", "chart", 1) && LessAt("chart", "checkbox", 2)
  {
  }

  lemma OrderB1()
    ensures LessAt("checkbox", "collapsible", 1) && LessAt("collapsible", "command", 2)
    ensures LessAt("command", "context-menu", 2) && LessAt("context-menu", "dialog", 0)
    ensures LessAt("dialog", "drawer", 1) && LessAt("drawer", "dropdown-menu", 2)
  {
  }

  lemma OrderB2()
    ensures LessAt("dropdown-menu", "form", 0) && LessAt("form", "hover-card", 0)
    ensures LessAt("hover-card", "input", 0) && LessAt("input", "input-otp", 5)
    ensures LessAt("input-otp", "label", 0) && LessAt("label", "menubar", 0)
  {
  }

  lemma OrderC1()
    ensures LessAt("menubar", "navigation-menu", 0) && LessAt("navigation-menu", "pagination", 0)
    ensures LessAt("pagination", "popover", 1) && LessAt("popover", "progress", 1)
    ensures LessAt("progress", "radio-group", 0) && LessAt("radio-group", "resizable", 1)
  {
  }

  lemma OrderC2()
    ensures LessAt("resizable", "scroll-area", 0) && LessAt("scroll-area", "select", 1)
    ensures LessAt("select", "separator", 2) && LessAt("separator", "sheet", 1)
    ensures LessAt("sheet", "sidebar", 1)
  {
  }

  lemma OrderD1()
    ensures LessAt("sidebar", "skeleton", 1) && LessAt("skeleton", "slider", 1)
    ensures LessAt("slider", "sonner", 1) && LessAt("sonner", "switch", 1)
    ensures LessAt("switch", "table", 0) && LessAt("table", "tabs", 3)
  {
  }

  lemma OrderD2()
    ensures LessAt("tabs", "textarea", 1) && LessAt("textarea", "toggle", 1)
    ensures LessAt("toggle", "toggle-group", 6) && LessAt("toggle-group", "tooltip", 2)
  {
  }

  lemma SliceA() ensures AllGood(ValuesOf(CatalogA)) && Ascending(ValuesOf(CatalogA)) && ValuesOf(CatalogA)[11] == "chart"
  {
    ValuesA();
    GoodA1();
    GoodA2();
    OrderA1();
    OrderA2();
  }

  lemma SliceB()
    ensures AllGood(ValuesOf(CatalogB)) && Ascending(ValuesOf(CatalogB))
    ensures ValuesOf(CatalogB)[0] == "checkbox" && ValuesOf(CatalogB)[11] == "label"
  {
    ValuesB();
    GoodB1();
    GoodB2();
    OrderB1();
    OrderB2();
  }

  lemma SliceC()
    ensures AllGood(ValuesOf(CatalogC)) && Ascending(ValuesOf(CatalogC))
    ensures ValuesOf(CatalogC)[0] == "menubar" && ValuesOf(CatalogC)[10] == "sheet"
  {
    ValuesC();
    GoodC1();
    GoodC2();
    OrderC1();
    OrderC2();
  }

  lemma SliceD() ensures AllGood(ValuesOf(CatalogD)) && Ascending(ValuesOf(CatalogD)) && ValuesOf(CatalogD)[0] == "sidebar"
  {
    ValuesD();
    GoodD1();
    GoodD2();
    OrderD1();
    OrderD2();
  }

  /** The catalog's values, slice by slice, are well formed and strictly ascending. */
  lemma CatalogValuesWellFormed()
    ensures |CatalogValues| == 46
    ensures AllGood(CatalogValues)
    ensures Ascending(CatalogValues)
  {
    var a, b, c, d := ValuesOf(CatalogA), ValuesOf(CatalogB), ValuesOf(CatalogC), ValuesOf(CatalogD);
    ValuesOfAppend(CatalogA, CatalogB);
    ValuesOfAppend(CatalogA + CatalogB, CatalogC);
    ValuesOfAppend(CatalogA + CatalogB + CatalogC, CatalogD);
    assert CatalogValues == a + b + c + d;
    SliceA();
    SliceB();
    SliceC();
    SliceD();
    OrderA2();
    OrderB2();
    OrderC2();
    assert Less(a[|a| - 1], b[0]);
    AscendingAppend(a, b);
    AllGoodAppend(a, b);
    assert (a + b)[|a + b| - 1] == b[|b| - 1];
    assert Less((a + b)[|a + b| - 1], c[0]);
    AscendingAppend(a + b, c);
    AllGoodAppend(a + b, c);
    assert (a + b + c)[|a + b + c| - 1] == c[|c| - 1];
    assert Less((a + b + c)[|a + b + c| - 1], d[0]);
    AscendingAppend(a + b + c, d);
    AllGoodAppend(a + b + c, d);
  }

  // ---------------------------------------------------------------------------
  // what the rest of the program relies on

  /** The catalog has 46 entries, and their values are pairwise distinct. */
  lemma CatalogValuesDistinct()
    ensures |Catalog| == 46 && |CatalogValues| == 46
    ensures forall i, j :: 0 <= i < j < |CatalogValues| ==> CatalogValues[i] != CatalogValues[j]
  {
    CatalogValuesWellFormed();
    forall i, j | 0 <= i < j < |CatalogValues|
      ensures CatalogValues[i] != CatalogValues[j]
    {
      AscendingOrdered(CatalogValues, i, j);
    }
  }

  /** Every value is already a canonical component name and would also pass as a project name. */
  lemma CatalogValuesCanonical()
    ensures forall v :: v in CatalogValues ==> NormalizeComponentName(v) == v && ValidateProjectName(v)
  {
    CatalogValuesWellFormed();
  }

  /** The `all` sentinel is not a catalog value. */
  lemma SentinelNotInCatalog()
    ensures "all" !in CatalogValues
  {
    CatalogValuesWellFormed();
  }
}
