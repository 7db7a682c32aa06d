/**
 * `ExampleViewModel`: the state behind the demo screen. It holds the
 * message log, the chosen demo application with its activation code, the
 * transaction fields and the amount the user is typing, and checks each
 * keystroke in the amount field before it is stored.
 */
module ExampleViewModel {
  import opened Wrappers
  import opened KotlinText
  import opened JavaDecimal
  import opened PosApiUtil
  import opened ExampleSection

  // ---------------------------------------------------------------------
  // The amount field
  // ---------------------------------------------------------------------

  const MaxAmountLength: nat := 12
  const MaxFractionDigits: nat := 2
  const DecimalPoint: char := '.'

  /** The characters `handleInputAmt` keeps: `c.isDigit() || c == '.'`. */
  predicate IsAmountChar(c: char) {
    IsDigit(c) || c == DecimalPoint
  }

  /** No point in `s` has more than `k` characters after it. */
  predicate FractionAtMost(s: string, k: nat) {
    forall i :: 0 <= i < |s| && s[i] == DecimalPoint ==> |s| - i - 1 <= k
  }

  /**
   * What the amount field can hold: at most twelve characters, all digits
   * or points, at most one point, and at most two characters after it.
   */
  predicate AmountWellFormed(s: string) {
    && |s| <= MaxAmountLength
    && (forall i :: 0 <= i < |s| ==> IsAmountChar(s[i]))
    && Count(s, DecimalPoint) <= 1
    && FractionAtMost(s, MaxFractionDigits)
  }

  /**
   * The value `handleInputAmt(incoming)` leaves in `amountStr` when it held
   * `previous`: the keystroke is refused (the early returns) or the incoming
   * text is stored with everything but digits and points removed.
   */
  function SanitizeAmount(previous: string, incoming: string): (r: string)
    ensures r == previous || r == Filter(incoming, IsAmountChar)
  {
    if |incoming| > MaxAmountLength then previous
    else if Count(incoming, DecimalPoint) > 1 then previous
    else match GetOrNull(Split(incoming, DecimalPoint), 1)
      case Some(afterDecimal) =>
        if |afterDecimal| > MaxFractionDigits then previous
        else Filter(incoming, IsAmountChar)
      case None => Filter(incoming, IsAmountChar)
  }

  /**
   * With at most one point, the piece `split(".")` yields after the point is
   * everything after it; without a point there is no such piece.
   */
  lemma {:induction false} PieceAfterPoint(s: string)
    requires Count(s, DecimalPoint) <= 1
    ensures DecimalPoint !in s ==> GetOrNull(Split(s, DecimalPoint), 1).None?
    ensures DecimalPoint in s ==>
      var i := IndexOf(s, DecimalPoint);
      GetOrNull(Split(s, DecimalPoint), 1) == Some(s[i + 1..])
  {
    if DecimalPoint in s {
      var i := IndexOf(s, DecimalPoint);
      assert s == s[..i] + [DecimalPoint] + s[i + 1..];
      CountAppend(s[..i] + [DecimalPoint], s[i + 1..], DecimalPoint);
      SplitAtFirst(s, DecimalPoint, i);
      SplitWithoutSeparator(s[i + 1..], DecimalPoint);
    }
  }

  /**
   * The three refusals and the acceptance of `handleInputAmt`, with the
   * third refusal stated by position instead of by `split`: refused when the
   * text is over twelve characters, when it has two points or more, or when
   * its point has more than two characters after it; otherwise stored
   * filtered.
   */
  lemma {:induction false} SanitizeAmountRules(previous: string, incoming: string)
    ensures |incoming| > MaxAmountLength ==> SanitizeAmount(previous, incoming) == previous
    ensures Count(incoming, DecimalPoint) > 1 ==> SanitizeAmount(previous, incoming) == previous
    ensures !FractionAtMost(incoming, MaxFractionDigits) ==> SanitizeAmount(previous, incoming) == previous
    ensures |incoming| <= MaxAmountLength && Count(incoming, DecimalPoint) <= 1
            && FractionAtMost(incoming, MaxFractionDigits)
        ==> SanitizeAmount(previous, incoming) == Filter(incoming, IsAmountChar)
  {
    if |incoming| <= MaxAmountLength && Count(incoming, DecimalPoint) <= 1 {
      PieceAfterPoint(incoming);
      if DecimalPoint in incoming {
        var i := IndexOf(incoming, DecimalPoint);
        forall j | 0 <= j < |incoming| && incoming[j] == DecimalPoint
          ensures j == i
        {
          OnlyOccurrence(incoming, DecimalPoint, j);
        }
      }
    }
  }

  /** Filtering keeps a well-formed amount's length, point count and fraction bounds. */
  lemma {:induction false} FilterKeepsAmountShape(s: string)
    requires |s| <= MaxAmountLength && Count(s, DecimalPoint) <= 1
    requires FractionAtMost(s, MaxFractionDigits)
    ensures AmountWellFormed(Filter(s, IsAmountChar))
  {
    var r := Filter(s, IsAmountChar);
    FilterCount(s, IsAmountChar, DecimalPoint);
    forall j | 0 <= j < |r| && r[j] == DecimalPoint
      ensures |r| - j - 1 <= MaxFractionDigits
    {
      var i := FilterSource(s, IsAmountChar, j);
    }
  }

  /** Every keystroke leaves a well-formed amount well-formed. */
  lemma {:induction false} SanitizeAmountPreserves(previous: string, incoming: string)
    requires AmountWellFormed(previous)
    ensures AmountWellFormed(SanitizeAmount(previous, incoming))
  {
    SanitizeAmountRules(previous, incoming);
    if |incoming| <= MaxAmountLength && Count(incoming, DecimalPoint) <= 1
       && FractionAtMost(incoming, MaxFractionDigits) {
      FilterKeepsAmountShape(incoming);
    }
  }

  /** A third fraction digit is refused. */
  lemma {:induction false} SanitizeAmountRefusesThirdDecimal()
    ensures SanitizeAmount("", "12.345") == ""
  {
    SanitizeAmountRules("", "12.345");
    assert "12.345"[2] == DecimalPoint;
  }

  /** A second point is refused. */
  lemma {:induction false} SanitizeAmountRefusesSecondPoint()
    ensures SanitizeAmount("1.2", "1.2.3") == "1.2"
  {
    SanitizeAmountRules("1.2", "1.2.3");
    assert "1.2.3" == "1.2" + ".3";
    CountAppend("1.2", ".3", DecimalPoint);
  }

  /** A letter is dropped from an otherwise acceptable amount. */
  lemma {:induction false} SanitizeAmountDropsLetter()
    ensures SanitizeAmount("", "12.5a") == "12.5"
  {
    var s := "12.5a";
    SanitizeAmountRules("", s);
    assert Count(s, DecimalPoint) == 1 by {
      assert s == "12" + ".5a";
      CountAppend("12", ".5a", DecimalPoint);
    }
    assert FractionAtMost(s, MaxFractionDigits) by {
      assert forall i :: 0 <= i < |s| && i != 2 ==> s[i] != DecimalPoint;
    }
    assert Filter(s, IsAmountChar) == "12.5" by {
      assert s == "12.5" + "a";
      FilterAppend("12.5", "a", IsAmountChar);
    }
  }

  /**
   * A well-formed amount parses exactly when it holds a digit, and then
   * with at most two fraction digits; without a digit nothing parses.
   */
  lemma {:induction false} ParseAmount(s: string)
    ensures AmountWellFormed(s) && HasDigit(s)
        ==> ParseDecimal(s).Some? && ParseDecimal(s).value.scale <= MaxFractionDigits
    ensures !HasDigit(s) ==> ParseDecimal(s).None?
  {
    if ParseDecimal(s).Some? {
      if AmountWellFormed(s) {
        ParseValue(s, ParseDecimal(s).value);
        var dot := IndexOf(s, DecimalPoint);
        if dot != -1 {
          assert s[dot] == DecimalPoint;
        }
      }
    } else if AmountWellFormed(s) {
      ParseAcceptsDigits(s);
    }
  }

  /** `getAmountForSale`: `BigDecimal(amountStr)`, or `BigDecimal.ZERO` when that throws. */
  function AmountForSale(amountStr: string): (amount: Decimal)
    ensures AmountWellFormed(amountStr) && HasDigit(amountStr)
        ==> ParseDecimal(amountStr) == Some(amount) && amount.scale <= MaxFractionDigits
    ensures !HasDigit(amountStr) ==> amount == Zero
  {
    ParseAmount(amountStr);
    match ParseDecimal(amountStr)
    case Some(value) => value
    case None => Zero
  }

  // ---------------------------------------------------------------------
  // The message log
  // ---------------------------------------------------------------------

  const LogMarker: string := "==> "

  function LogEntry(message: string): string {
    LogMarker + message
  }

  /** Every entry of the log carries the marker. */
  predicate IsLog(log: seq<string>) {
    forall i :: 0 <= i < |log| ==> LogMarker <= log[i]
  }

  // ---------------------------------------------------------------------
  // The view model
  // ---------------------------------------------------------------------

  class ExampleViewModel {
    var messages: seq<string>
    var demoApp: DemoApp
    var activationCode: string
    var cachedTransactionId: string
    var merchantAdminPasscode: string
    var posMessageId: string
    const currency: string
    var autoDismissTransaction: bool
    var amountStr: string

    /** What every operation keeps true of the fields. */
    predicate Valid()
      reads this
    {
      && AmountWellFormed(amountStr)
      && IsLog(messages)
      && IsActivationCode(activationCode)
    }

    /**
     * The initial state; the init block restores the default activation code
     * and draws a message id, which `messageId` stands for.
     */
    constructor (messageId: string)
      ensures Valid()
      ensures messages == []
      ensures demoApp == MSA
      ensures activationCode == Param(MSA).defaultActivationCode
      ensures cachedTransactionId == ""
      ensures merchantAdminPasscode == "123456"
      ensures posMessageId == messageId
      ensures currency == "USD"
      ensures autoDismissTransaction
      ensures amountStr == "2"
    {
      messages := [];
      demoApp := MSA;
      activationCode := "";
      cachedTransactionId := "";
      merchantAdminPasscode := "123456";
      posMessageId := "";
      currency := "USD";
      autoDismissTransaction := true;
      amountStr := "2";
      new;
      assert "2"[0] == '2';
      RestoreDefaultActivationCode();
      ResetRandomPosMessageId(messageId);
    }

    /** Append one marked entry; earlier entries keep their place. */
    method WriteMessage(message: string)
      requires Valid()
      modifies this`messages
      ensures Valid()
      ensures messages == old(messages) + [LogEntry(message)]
    {
      var temp := messages + [LogEntry(message)];
      messages := temp;
    }

    /** Empty the log. */
    method ClearLog()
      requires Valid()
      modifies this`messages
      ensures Valid()
      ensures messages == []
    {
      messages := [];
    }

    /** One keystroke in the amount field, refused or stored filtered. */
    method HandleInputAmt(incomingStr: string)
      requires Valid()
      modifies this`amountStr
      ensures Valid()
      ensures amountStr == SanitizeAmount(old(amountStr), incomingStr)
    {
      SanitizeAmountPreserves(amountStr, incomingStr);
      if |incomingStr| > MaxAmountLength {
        return;
      }
      if Count(incomingStr, DecimalPoint) > 1 {
        return;
      }
      var afterDecimal := GetOrNull(Split(incomingStr, DecimalPoint), 1);
      if afterDecimal.Some? && |afterDecimal.value| > MaxFractionDigits {
        return;
      }
      amountStr := Filter(incomingStr, IsAmountChar);
    }

    /** The amount to charge: the parsed field, or zero when it does not parse. */
    function GetAmountForSale(): (amount: Decimal)
      reads this
      ensures Valid() && HasDigit(amountStr)
          ==> ParseDecimal(amountStr) == Some(amount) && amount.scale <= MaxFractionDigits
      ensures !HasDigit(amountStr) ==> amount == Zero
    {
      AmountForSale(amountStr)
    }

    /** A fresh message id; `id` stands for the random UUID string. */
    method ResetRandomPosMessageId(id: string)
      requires Valid()
      modifies this`posMessageId
      ensures Valid()
      ensures posMessageId == id
    {
      posMessageId := id;
    }

    /**
     * Switch to the named demo application and restore its default code; an
     * unknown name is the `valueOf` exception, and then nothing changes.
     */
    method ChangeDemoApp(demoAppName: string) returns (ok: bool)
      requires Valid()
      modifies this`demoApp, this`activationCode
      ensures Valid()
      ensures ok <==> ValueOf(demoAppName).Some?
      ensures ok ==> (demoApp == ValueOf(demoAppName).value
                      && activationCode == Param(demoApp).defaultActivationCode)
      ensures !ok ==> demoApp == old(demoApp) && activationCode == old(activationCode)
    {
      var app := ValueOf(demoAppName);
      if app.None? {
        return false;
      }
      demoApp := app.value;
      RestoreDefaultActivationCode();
      ok := true;
    }

    /** Put back the current application's default activation code. */
    method RestoreDefaultActivationCode()
      requires Valid()
      modifies this`activationCode
      ensures Valid()
      ensures activationCode == Param(demoApp).defaultActivationCode
    {
      DefaultCodesAreCodes(demoApp);
      activationCode := Param(demoApp).defaultActivationCode;
    }

    /** The activation code field's change handler: keep up to twelve of the digits typed. */
    method EditActivationCode(typed: string)
      requires Valid()
      modifies this`activationCode
      ensures Valid()
      ensures activationCode == ActivationCodeInput(typed)
    {
      activationCode := ActivationCodeInput(typed);
    }
  }

  /** The default code of every demo application is a valid twelve-digit code. */
  lemma DefaultCodesAreCodes(app: DemoApp)
    ensures IsActivationCode(Param(app).defaultActivationCode)
    ensures |Param(app).defaultActivationCode| == ActivationCodeLength
  {
  }

  /** The log scenario: two writes appear in order, and a clear empties the log. */
  method LogScenario()
  {
    var vm := new ExampleViewModel("id");
    vm.WriteMessage("A");
    vm.WriteMessage("B");
    assert LogEntry("A") == "==> A" && LogEntry("B") == "==> B";
    assert vm.messages == ["==> A", "==> B"];
    vm.ClearLog();
    assert vm.messages == [];
  }
}
