/** The texts of the registry script for a given DLL, and that they satisfy what its proofs need. */
module WineRegistry {
  import opened Common
  import opened RegistryPatch
  import opened StripText

  const SOFTWARE := "[Software\\\\"
  const TARGET := SOFTWARE + "Microsoft\\\\" + "Windows NT\\\\" + "CurrentVersion\\\\" + "Windows]"
  const TIMESTAMP := "1789457453"
  const APP := "\"AppInit_DLLs\""
  const LOAD := "\"LoadAppInit_DLLs\""

  function TextsFor(dll: string): Texts {
    Texts(s => Strip(s), TARGET, SOFTWARE, APP, LOAD,
          TARGET + " " + TIMESTAMP + "\n", "#time=1dd44e423d46734" + "\n",
          APP + "=\"" + dll + "\"" + "\n", LOAD + "=dword:00000001" + "\n")
  }

  lemma NoBreaksConcat(a: string, b: string)
    requires NoBreaks(a) && NoBreaks(b)
    ensures NoBreaks(a + b)
  {}

  /** A line made of a body without breaks that neither begins nor ends with white space. */
  lemma LineOf(body: string)
    requires NoBreaks(body) && |body| >= 1 && !Space(body[0]) && !Space(body[|body| - 1])
    ensures Terminated(body + "\n") && Strip(body + "\n") == body
  {
    var line := body + "\n";
    StripLine(body);
    assert line[..|line| - 1] == body;
  }

  lemma TargetText()
    ensures NoBreaks(TARGET) && |TARGET| >= 1 && TARGET[0] == '['
  {
    var a, b := SOFTWARE + "Microsoft\\\\", "Windows NT\\\\";
    NoBreaksConcat(SOFTWARE, "Microsoft\\\\");
    NoBreaksConcat(a, b);
    NoBreaksConcat(a + b, "CurrentVersion\\\\");
    NoBreaksConcat(a + b + "CurrentVersion\\\\", "Windows]");
    assert TARGET[0] == SOFTWARE[0];
  }

  lemma HeaderText()
    ensures var line := TARGET + " " + TIMESTAMP + "\n"; TARGET <= Strip(line) && Terminated(line)
  {
    var body := TARGET + " " + TIMESTAMP;
    TargetText();
    NoBreaksConcat(TARGET, " ");
    NoBreaksConcat(TARGET + " ", TIMESTAMP);
    assert body[0] == TARGET[0] && body[|body| - 1] == TIMESTAMP[|TIMESTAMP| - 1] == '3';
    LineOf(body);
  }

  /** Neither a header nor blank. */
  predicate Plain(line: string) {
    Strip(line) != "" && Strip(line)[0] != '['
  }

  lemma TimeText()
    ensures var line := "#time=1dd44e423d46734" + "\n"; Plain(line) && Terminated(line)
  {
    LineOf("#time=1dd44e423d46734");
  }

  lemma AppText(dll: string)
    requires NoBreaks(dll)
    ensures var line := APP + "=\"" + dll + "\"" + "\n"; Plain(line) && APP <= Strip(line) && Terminated(line)
  {
    var body := APP + "=\"" + dll + "\"";
    NoBreaksConcat(APP, "=\"");
    NoBreaksConcat(APP + "=\"", dll);
    NoBreaksConcat(APP + "=\"" + dll, "\"");
    assert body[0] == APP[0] == '\"' && body[|body| - 1] == '\"';
    LineOf(body);
  }

  lemma LoadText()
    ensures var line := LOAD + "=dword:00000001" + "\n";
            Plain(line) && LOAD <= Strip(line) && !(APP <= Strip(line)) && Terminated(line)
  {
    var body := LOAD + "=dword:00000001";
    NoBreaksConcat(LOAD, "=dword:00000001");
    assert body[0] == LOAD[0] == '\"' && body[|body| - 1] == '1' && body[1] == LOAD[1] == 'L' && APP[1] == 'A';
    LineOf(body);
  }

  /** The texts, letter by letter. */
  lemma TextsExactly(dll: string)
    ensures var t := TextsFor(dll);
            && t.target == "[Software\\\\Microsoft\\\\Windows NT\\\\CurrentVersion\\\\Windows]"
            && t.software == "[Software\\\\"
            && t.app == "\"AppInit_DLLs\"" && t.load == "\"LoadAppInit_DLLs\""
            && t.timeLine == "#time=1dd44e423d46734\n"
  {
    KeyText();
  }

  lemma KeyText()
    ensures TARGET == "[Software\\\\Microsoft\\\\Windows NT\\\\CurrentVersion\\\\Windows]"
  {
    assert SOFTWARE + "Microsoft\\\\" == "[Software\\\\Microsoft\\\\";
    assert "[Software\\\\Microsoft\\\\" + "Windows NT\\\\" == "[Software\\\\Microsoft\\\\Windows NT\\\\";
    LastPartOfKey();
  }

  lemma LastPartOfKey()
    ensures "[Software\\\\Microsoft\\\\Windows NT\\\\" + "CurrentVersion\\\\" + "Windows]"
         == "[Software\\\\Microsoft\\\\Windows NT\\\\CurrentVersion\\\\Windows]"
  {}

  lemma LinesExactly(dll: string)
    ensures var t := TextsFor(dll);
            && t.headerLine == t.target + " 1789457453\n"
            && t.appLine == "\"AppInit_DLLs\"=\"" + dll + "\"\n"
            && t.loadLine == "\"LoadAppInit_DLLs\"=dword:00000001\n"
            && forall s: string :: t.strip(s) == Strip(s)
  {
    var t := TextsFor(dll);
    assert "\"" + "\n" == "\"\n" && " " + TIMESTAMP + "\n" == " 1789457453\n";
    assert APP + "=\"" == "\"AppInit_DLLs\"=\"";
  }

  /** So every result of `RegistryPatch` holds for the script, for each DLL path without line breaks
      or carriage returns. */
  lemma TextsAreValid(dll: string)
    requires NoBreaks(dll)
    ensures Valid(TextsFor(dll))
  {
    LinesAreValid(dll);
    StripIsValid(dll);
  }

  lemma LinesAreValid(dll: string)
    requires NoBreaks(dll)
    ensures ValidLines(TextsFor(dll))
  {
    var t := TextsFor(dll);
    TargetText();
    HeaderText();
    KeysText();
    TimeText();
    PlainIsNoStop(t.timeLine, t);
    AppText(dll);
    PlainIsNoStop(t.appLine, t);
    LoadText();
    PlainIsNoStop(t.loadLine, t);
  }

  lemma PlainIsNoStop(line: string, t: Texts)
    requires Plain(line) && t.strip(line) == Strip(line)
    ensures !IsStop(line, t)
  {}

  lemma KeysText()
    ensures "[" <= SOFTWARE <= TARGET
  {
    TargetBehindSoftware();
  }

  lemma StripIsValid(dll: string)
    ensures ValidStrip(TextsFor(dll))
  {
    var t := TextsFor(dll);
    assert LStrip("\n") == "" by { assert "\n"[1..] == ""; }
    forall x: string ensures Strip(x + "\n") == Strip(x) {
      StripIgnoresLineFeed(x);
    }
    forall x: string | Strip(x) != "" ensures Strip(x) <= Strip(x + t.appLine) {
      StripGlued(x, t.appLine);
    }
    forall x: string | Strip(x) != "" ensures Strip(x) <= Strip(x + t.loadLine) {
      StripGlued(x, t.loadLine);
    }
  }

  /** The one case in which the patch is not idempotent does occur: a registry file that consists of
      the bare header of the section, without a line end. */
  lemma BareHeaderIsSpoilt(dll: string)
    requires NoBreaks(dll)
    ensures Spoils(TARGET, TextsFor(dll))
    ensures PatchContent(PatchContent(TARGET, TextsFor(dll)), TextsFor(dll)) != PatchContent(TARGET, TextsFor(dll))
  {
    TextsAreValid(dll);
    TargetText();
    OneLine(TARGET);
    TargetStripped();
    OneLineSpoils(TARGET, TextsFor(dll));
    IdempotentExactly(TARGET, TextsFor(dll));
  }

  lemma TargetStripped()
    ensures Strip(TARGET) == TARGET && TARGET[|TARGET| - 1] == ']'
  {
    TargetText();
    var a := SOFTWARE + "Microsoft\\\\" + "Windows NT\\\\" + "CurrentVersion\\\\";
    assert TARGET == a + "Windows]";
    assert TARGET[|TARGET| - 1] == "Windows]"[7] == ']';
  }

  lemma OneLine(c: string)
    requires c != "" && NoBreaks(c)
    ensures SplitLines(c) == [c]
  {
    assert WellFormed([c]);
    assert Joined([c]) == c + Joined([]) == c;
    SplitJoined([c]);
  }

  lemma OneLineSpoils(c: string, t: Texts)
    requires SplitLines(c) == [c] && c != "" && NoBreaks(c) && IsTarget(c, t)
    ensures Spoils(c, t)
  {
    assert FirstTarget([c], t) == Some(0);
    assert SectionEnd([c], 1, t) == 1;
    assert Missing([c], 1, 1, t) == [t.appLine, t.loadLine];
  }

  /** The order of Python strings. */
  predicate TextOrder(a: string, b: string) {
    a == b || StringLess(a, b)
  }

  lemma TextOrderIsTransitive()
    ensures Transitive(TextOrder)
  {
    forall x, y, z | TextOrder(x, y) && TextOrder(y, z) ensures TextOrder(x, z) {
      if StringLess(x, y) && StringLess(y, z) { StringLessTransitive(x, y, z); }
    }
  }

  const WINE_KEY := SOFTWARE + "Wine] 1"

  /** Sorted keys do not always stay sorted: in a file whose only section is Wine's own, the new
      section comes behind it and belongs in front of it. */
  lemma NewSectionIsOutOfOrder(dll: string)
    requires NoBreaks(dll)
    ensures var t, c := TextsFor(dll), WINE_KEY + "\n";
            && Ordered(Keys(SplitLines(c), t), TextOrder)
            && !Ordered(Keys(SplitLines(PatchContent(c, t)), t), TextOrder)
  {
    var t, c := TextsFor(dll), WINE_KEY + "\n";
    TextsAreValid(dll);
    WineKeyLine();
    OneLineFile(c);
    WineKeyIsNoTarget(c, t);
    PatchedFileIsStable(c, t);
    NewKeyComesBefore();
    OneKeyOutOfOrder(c, t);
  }

  lemma OneKeyOutOfOrder(c: string, t: Texts)
    requires Valid(t) && FirstTarget([c], t).None? && IsSoftware(c, t)
    requires !TextOrder(t.strip(c), t.strip(t.headerLine))
    ensures Ordered(Keys([c], t), TextOrder) && !Ordered(Keys(Patched([c], t), t), TextOrder)
  {
    OneKey(c, t);
    TextOrderIsTransitive();
    OrderKeptExactly([c], t, TextOrder);
  }

  lemma WineKeyLine()
    ensures var c := WINE_KEY + "\n"; Terminated(c) && Strip(c) == WINE_KEY
  {
    NoBreaksConcat(SOFTWARE, "Wine] 1");
    assert WINE_KEY[0] == SOFTWARE[0] == '[';
    assert WINE_KEY[|WINE_KEY| - 1] == "Wine] 1"[6] == '1';
    LineOf(WINE_KEY);
  }

  lemma OneLineFile(c: string)
    requires Terminated(c)
    ensures SplitLines(c) == [c]
  {
    assert WellFormed([c]);
    assert Joined([c]) == c + Joined([]) == c;
    SplitJoined([c]);
  }

  lemma WineKeyIsNoTarget(c: string, t: Texts)
    requires t.strip(c) == WINE_KEY && t.target == TARGET && t.software == SOFTWARE && Terminated(c)
    ensures FirstTarget([c], t).None? && IsSoftware(c, t) && !Glued([c], t)
  {
    var n := |SOFTWARE|;
    assert WINE_KEY[n] == "Wine] 1"[0] == 'W';
    TargetBehindSoftware();
    assert TARGET[n] == 'M';
    assert SOFTWARE <= WINE_KEY;
  }

  lemma TargetBehindSoftware()
    ensures |TARGET| > |SOFTWARE| && TARGET[|SOFTWARE|] == 'M' && SOFTWARE <= TARGET
  {
    var a := SOFTWARE + "Microsoft\\\\";
    assert a[|SOFTWARE|] == "Microsoft\\\\"[0] == 'M';
    assert TARGET == a + ("Windows NT\\\\" + "CurrentVersion\\\\" + "Windows]");
  }

  lemma NewKeyComesBefore()
    ensures var header := TARGET + " " + TIMESTAMP; Strip(header + "\n") == header && !TextOrder(WINE_KEY, header)
  {
    var header := TARGET + " " + TIMESTAMP;
    TargetText();
    NoBreaksConcat(TARGET, " ");
    NoBreaksConcat(TARGET + " ", TIMESTAMP);
    assert header[0] == TARGET[0] && header[|header| - 1] == TIMESTAMP[|TIMESTAMP| - 1] == '3';
    LineOf(header);
    TargetBehindSoftware();
    var rest := header[|SOFTWARE|..];
    assert header == SOFTWARE + rest && rest[0] == header[|SOFTWARE|] == TARGET[|SOFTWARE|] == 'M';
    StringLessBehind(SOFTWARE, "Wine] 1", rest);
    assert WINE_KEY[|SOFTWARE|] == 'W';
  }
}
