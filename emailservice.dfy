/** The password-recovery code store of src/services/emailService.js.
    Codes live in `localStorage` under `reset_<email>` as
    `{email, code, timestamp, used}`. The clock reading and the random draw
    are parameters; email delivery is reduced to whether it succeeded. */
module EmailService {
  import opened JsText
  import opened Storage
  import opened Validators

  /** Fifteen minutes in milliseconds. */
  const ExpiryMs: int := 15 * 60 * 1000
  const CodeMin: int := 100000
  const CodeMax: int := 999999

  /** The EmailJS settings read from the environment (each `import.meta.env.X || default`). */
  datatype EmailConfig = EmailConfig(
    serviceId: string, templateId: string, publicKey: string,
    fromName: string, fromEmail: string)

  /** The settings when none of the environment variables is set. */
  const UnsetConfig: EmailConfig :=
    EmailConfig("", "", "", "Sistema de Recuperación", "noreply@tuapp.com")

  /** isEmailJSConfigured: all three ids are non-empty and none is still a template placeholder. */
  function IsEmailJSConfigured(cfg: EmailConfig): (r: bool)
    ensures r <==> (
      && cfg.serviceId != "" && cfg.templateId != "" && cfg.publicKey != ""
      && (forall i :: !OccursAt(cfg.serviceId, "tu-service", i))
      && (forall i :: !OccursAt(cfg.templateId, "tu-template", i))
      && (forall i :: !OccursAt(cfg.publicKey, "tu-public", i)))
  {
    cfg.serviceId != "" && cfg.templateId != "" && cfg.publicKey != ""
    && !Contains(cfg.serviceId, "tu-service")
    && !Contains(cfg.templateId, "tu-template")
    && !Contains(cfg.publicKey, "tu-public")
  }

  /** With no environment variables, or with the placeholder ids of the
      example configuration, EmailJS counts as not configured. */
  lemma UnconfiguredSettings(publicKey: string)
    ensures !IsEmailJSConfigured(UnsetConfig)
    ensures !IsEmailJSConfigured(EmailConfig("tu-service-id", "tu-template-id", publicKey, "", ""))
  {
    assert OccursAt("tu-service-id", "tu-service", 0);
  }

  /** generateResetCode: `Math.floor(100000 + Math.random() * 900000).toString()`,
      with the integer the expression yields passed in as `draw`. The result is
      the six-digit decimal text of the draw and always passes validateResetCode. */
  function GenerateResetCode(draw: int): (code: string)
    requires CodeMin <= draw <= CodeMax
    ensures |code| == 6 && AllAsciiDigits(code)
    ensures DecimalValue(code) == draw
    ensures ValidateResetCode(code) == Pass
  {
    assert Pow10(5) == 100000 && Pow10(6) == 1000000;
    DecimalLength(draw, 6);
    DecimalRoundTrip(draw);
    NatToDecimal(draw)
  }

  /** Different draws give different codes, so the code identifies the draw. */
  lemma CodesDistinct(d1: int, d2: int)
    requires CodeMin <= d1 <= CodeMax && CodeMin <= d2 <= CodeMax
    ensures GenerateResetCode(d1) == GenerateResetCode(d2) <==> d1 == d2
  {
    if GenerateResetCode(d1) == GenerateResetCode(d2) {
      assert DecimalValue(GenerateResetCode(d1)) == d1;
    }
  }

  /** The object sendPasswordResetEmail resolves to; `code` is absent on the real path. */
  datatype SendResult = SendResult(success: bool, message: string, code: Option<string>, isSimulated: bool)

  function RealMessage(email: string): string {
    "✅ Código de recuperación enviado a " + email + ". Revisa tu bandeja de entrada."
  }

  function SimulatedMessage(code: string): string {
    "[SIMULACIÓN] Código: " + code + ". Configure EmailJS para envíos reales."
  }

  // ---------------------------------------------------------------------
  // The store as a function of the storage map

  /** The map after a fresh record for `email` is written (any earlier one is replaced). */
  function Issue(items: map<string, Item>, email: string, code: string, now: int): map<string, Item> {
    items[ResetKey(email) := ResetData(ResetRecord(email, code, now, false))]
  }

  /** Where one email's record stands at time `now`. */
  datatype Phase = NoRecord | Active | Used | Expired | Corrupt

  function PhaseOf(items: map<string, Item>, email: string, now: int): Phase {
    var k := ResetKey(email);
    if !Present(items, k) then NoRecord
    else match items[k]
      case ResetData(r) =>
        if r.used then Used else if now - r.timestamp > ExpiryMs then Expired else Active
      case _ => Corrupt
  }

  /** What verifyResetCode answers: only an active record with the same code verifies. */
  function VerifyOutcome(items: map<string, Item>, email: string, code: string, now: int): bool {
    PhaseOf(items, email, now) == Active && items[ResetKey(email)].rec.code == code
  }

  /** The map after verifyResetCode: an expired record is deleted, nothing else changes. */
  function AfterVerify(items: map<string, Item>, email: string, now: int): map<string, Item> {
    if PhaseOf(items, email, now) == Expired then items - {ResetKey(email)} else items
  }

  /** The map after markResetCodeAsUsed. */
  function MarkUsed(items: map<string, Item>, email: string): map<string, Item> {
    var k := ResetKey(email);
    if k in items && items[k].ResetData? then items[k := ResetData(items[k].rec.(used := true))]
    else items
  }

  /** The map after clearResetCode. */
  function Clear(items: map<string, Item>, email: string): map<string, Item> {
    items - {ResetKey(email)}
  }

  // ---------------------------------------------------------------------
  // The operations, on the shared storage object

  /** sendSimulatedEmail: store a new record and hand the code back for display. */
  method SendSimulatedEmail(ls: LocalStorage, email: string, draw: int, now: int) returns (res: SendResult)
    requires ls.Valid() && CodeMin <= draw <= CodeMax
    modifies ls
    ensures ls.Valid()
    ensures ls.items == Issue(old(ls.items), email, GenerateResetCode(draw), now)
    ensures var code := GenerateResetCode(draw);
      res == SendResult(true, SimulatedMessage(code), Some(code), true)
  {
    var resetCode := GenerateResetCode(draw);
    var resetData := ResetRecord(email, resetCode, now, false);
    ls.SetItem(ResetKey(email), ResetData(resetData));
    res := SendResult(true, SimulatedMessage(resetCode), Some(resetCode), true);
  }

  /** sendPasswordResetEmail tries a real delivery only for a non-empty email containing '@' under a usable configuration. */
  predicate AttemptsRealSend(email: string, cfg: EmailConfig) {
    email != "" && '@' in email && IsEmailJSConfigured(cfg)
  }

  /** The code left in the store: a failed real delivery falls back to the simulation, which draws again. */
  function IssuedCode(email: string, cfg: EmailConfig, delivered: bool, draw1: int, draw2: int): string
    requires CodeMin <= draw1 <= CodeMax && CodeMin <= draw2 <= CodeMax
  {
    GenerateResetCode(if AttemptsRealSend(email, cfg) && !delivered then draw2 else draw1)
  }

  /** sendPasswordResetEmail. A missing '@', an unusable configuration and a
      failed delivery all end in the simulated path; either way a record is
      stored and the result reports success. `delivered` is the outcome of
      `emailjs.send`; `draw1` and `draw2` are the first and second draws. */
  method SendPasswordResetEmail(ls: LocalStorage, email: string, cfg: EmailConfig, delivered: bool,
                                draw1: int, draw2: int, now: int) returns (res: SendResult)
    requires ls.Valid()
    requires CodeMin <= draw1 <= CodeMax && CodeMin <= draw2 <= CodeMax
    modifies ls
    ensures ls.Valid()
    ensures res.success
    ensures ls.items == Issue(old(ls.items), email, IssuedCode(email, cfg, delivered, draw1, draw2), now)
    ensures res.isSimulated <==> !(AttemptsRealSend(email, cfg) && delivered)
    ensures res.isSimulated ==>
      var code := IssuedCode(email, cfg, delivered, draw1, draw2);
      res == SendResult(true, SimulatedMessage(code), Some(code), true)
    ensures !res.isSimulated ==> res == SendResult(true, RealMessage(email), None, false)
  {
    if email == "" || '@' !in email {
      // `throw new Error('Email inválido')`, caught below the real path
      res := SendSimulatedEmail(ls, email, draw1, now);
      return;
    }
    if !IsEmailJSConfigured(cfg) {
      res := SendSimulatedEmail(ls, email, draw1, now);
      return;
    }
    var resetCode := GenerateResetCode(draw1);
    ls.SetItem(ResetKey(email), ResetData(ResetRecord(email, resetCode, now, false)));
    if !delivered {
      res := SendSimulatedEmail(ls, email, draw2, now);
      return;
    }
    res := SendResult(true, RealMessage(email), None, false);
  }

  /** verifyResetCode. */
  method VerifyResetCode(ls: LocalStorage, email: string, code: string, now: int) returns (ok: bool)
    requires ls.Valid()
    modifies ls
    ensures ls.Valid()
    ensures ok == VerifyOutcome(old(ls.items), email, code, now)
    ensures ls.items == AfterVerify(old(ls.items), email, now)
  {
    var key := ResetKey(email);
    if !Present(ls.items, key) {
      return false;
    }
    match ls.items[key]
    case ResetData(data) =>
      if data.used {
        return false;
      }
      if now - data.timestamp > ExpiryMs {
        ls.RemoveItem(key);
        return false;
      }
      return data.code == code;
    case Unparsable(_) =>
      // JSON.parse throws; the entry stays
      return false;
    case UserData(_) =>
      ResetKeysDistinct(email, email);
      assert false;
    case OtherJson(_) =>
      assert false;
  }

  /** markResetCodeAsUsed. */
  method MarkResetCodeAsUsed(ls: LocalStorage, email: string)
    requires ls.Valid()
    modifies ls
    ensures ls.Valid()
    ensures ls.items == MarkUsed(old(ls.items), email)
  {
    var key := ResetKey(email);
    if Present(ls.items, key) {
      match ls.items[key]
      case ResetData(data) =>
        ls.SetItem(key, ResetData(data.(used := true)));
      case _ =>
        // JSON.parse throws; the error is logged and nothing is written
    }
  }

  /** clearResetCode. */
  method ClearResetCode(ls: LocalStorage, email: string)
    requires ls.Valid()
    modifies ls
    ensures ls.Valid()
    ensures ls.items == Clear(old(ls.items), email)
  {
    ls.RemoveItem(ResetKey(email));
  }

  // ---------------------------------------------------------------------
  // Properties of the store

  /** A freshly issued code verifies exactly with itself, up to and including
      the fifteenth minute, and verifying it changes nothing. */
  lemma IssueThenVerify(items: map<string, Item>, email: string, code: string, t: int, now: int, attempt: string)
    requires now - t <= ExpiryMs
    ensures VerifyOutcome(Issue(items, email, code, t), email, attempt, now) <==> attempt == code
    ensures AfterVerify(Issue(items, email, code, t), email, now) == Issue(items, email, code, t)
  {
  }

  /** The expiry comparison is strict: at exactly 15 minutes the code is
      accepted, one millisecond later it is refused and the record deleted. */
  lemma ExpiryIsStrict(items: map<string, Item>, email: string, code: string, t: int)
    ensures VerifyOutcome(Issue(items, email, code, t), email, code, t + ExpiryMs)
    ensures !VerifyOutcome(Issue(items, email, code, t), email, code, t + ExpiryMs + 1)
    ensures AfterVerify(Issue(items, email, code, t), email, t + ExpiryMs + 1) == Clear(items, email)
  {
    var k := ResetKey(email);
    assert Issue(items, email, code, t) - {k} == items - {k};
  }

  /** Verification fails without a record, with a used record, and with
      unparsable text; in those cases the store is left as it was. */
  lemma VerifyFailsClosed(items: map<string, Item>, email: string, code: string, now: int)
    requires var k := ResetKey(email);
      k !in items || items[k].Unparsable? || (items[k].ResetData? && items[k].rec.used)
    ensures !VerifyOutcome(items, email, code, now)
    ensures AfterVerify(items, email, now) == items
  {
  }

  /** Verification either leaves the store alone or deletes this email's
      record and answers false; it never changes a record's `used` flag. */
  lemma VerifyOnlyPurges(items: map<string, Item>, email: string, code: string, now: int)
    ensures AfterVerify(items, email, now) == items
      || (AfterVerify(items, email, now) == Clear(items, email) && !VerifyOutcome(items, email, code, now))
    ensures forall k :: k in AfterVerify(items, email, now) ==> k in items && AfterVerify(items, email, now)[k] == items[k]
  {
  }

  /** Marking keeps email, code and timestamp and sets only `used`; without a
      record it changes nothing; other keys are never touched. */
  lemma MarkUsedSetsOnlyUsed(items: map<string, Item>, email: string)
    ensures var k := ResetKey(email);
      k in items && items[k].ResetData? ==>
        k in MarkUsed(items, email) && MarkUsed(items, email)[k].ResetData?
        && var before, after := items[k].rec, MarkUsed(items, email)[k].rec;
           after.email == before.email && after.code == before.code
           && after.timestamp == before.timestamp && after.used
    ensures ResetKey(email) !in items ==> MarkUsed(items, email) == items
    ensures MarkUsed(items, email).Keys == items.Keys
    ensures forall k :: k in items && k != ResetKey(email) ==> MarkUsed(items, email)[k] == items[k]
  {
  }

  /** After marking, no code verifies for that email, at any time. */
  lemma MarkUsedBlocksVerify(items: map<string, Item>, email: string, code: string, now: int)
    ensures !VerifyOutcome(MarkUsed(items, email), email, code, now)
  {
  }

  /** After clearing, the key is gone, nothing verifies, and other keys are unchanged. */
  lemma ClearRemovesOnlyKey(items: map<string, Item>, email: string, code: string, now: int)
    ensures ResetKey(email) !in Clear(items, email)
    ensures !VerifyOutcome(Clear(items, email), email, code, now)
    ensures forall k :: k != ResetKey(email) ==> (k in Clear(items, email) <==> k in items)
    ensures forall k :: k in Clear(items, email) ==> Clear(items, email)[k] == items[k]
  {
  }

  /** Issuing again for the same email invalidates the first code. */
  lemma ReissueInvalidatesEarlierCode(items: map<string, Item>, email: string,
                                      c1: string, t1: int, c2: string, t2: int, now: int)
    requires now - t2 <= ExpiryMs
    ensures VerifyOutcome(Issue(Issue(items, email, c1, t1), email, c2, t2), email, c1, now) <==> c1 == c2
    ensures VerifyOutcome(Issue(Issue(items, email, c1, t1), email, c2, t2), email, c2, now)
  {
    assert Issue(Issue(items, email, c1, t1), email, c2, t2) == Issue(items, email, c2, t2);
  }

  /** Operations on one email never change what another email's code verifies to. */
  lemma OtherEmailsUnaffected(items: map<string, Item>, email: string, other: string,
                              code: string, t: int, attempt: string, now: int)
    requires other != email
    ensures VerifyOutcome(Issue(items, email, code, t), other, attempt, now) == VerifyOutcome(items, other, attempt, now)
    ensures VerifyOutcome(MarkUsed(items, email), other, attempt, now) == VerifyOutcome(items, other, attempt, now)
    ensures VerifyOutcome(Clear(items, email), other, attempt, now) == VerifyOutcome(items, other, attempt, now)
    ensures VerifyOutcome(AfterVerify(items, email, t), other, attempt, now) == VerifyOutcome(items, other, attempt, now)
  {
    ResetKeysDistinct(email, other);
  }

  /** The life cycle of one email's record: issuing makes it active until it
      expires, marking turns any record into a used one, clearing removes it,
      and verification purges an expired record. */
  lemma PhaseTransitions(items: map<string, Item>, email: string, code: string, t: int, now: int)
    ensures now - t <= ExpiryMs ==> PhaseOf(Issue(items, email, code, t), email, now) == Active
    ensures now - t > ExpiryMs ==> PhaseOf(Issue(items, email, code, t), email, now) == Expired
    ensures PhaseOf(items, email, now) in {Active, Expired, Used} ==> PhaseOf(MarkUsed(items, email), email, now) == Used
    ensures PhaseOf(Clear(items, email), email, now) == NoRecord
    ensures PhaseOf(AfterVerify(items, email, now), email, now) != Expired
  {
  }

  /** The recovery scenario: a code issued at `t` verifies five minutes later;
      once marked used it no longer does. */
  lemma RecoveryScenario(items: map<string, Item>, t: int)
    ensures var issued := Issue(items, "a@x.com", "482913", t);
      && VerifyOutcome(issued, "a@x.com", "482913", t + 5 * 60 * 1000)
      && AfterVerify(issued, "a@x.com", t + 5 * 60 * 1000) == issued
      && !VerifyOutcome(MarkUsed(issued, "a@x.com"), "a@x.com", "482913", t + 5 * 60 * 1000)
  {
    IssueThenVerify(items, "a@x.com", "482913", t, t + 5 * 60 * 1000, "482913");
    MarkUsedBlocksVerify(Issue(items, "a@x.com", "482913", t), "a@x.com", "482913", t + 5 * 60 * 1000);
  }
}
