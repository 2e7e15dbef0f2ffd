/**
 * The provisioning portal's configuration rules: the configuration record and
 * its defaults, what makes it valid, how the `/save` form updates it, how it is
 * written to and read back from `/config.json`, and the guard flag that keeps
 * the access point and web server from being started or stopped twice.
 */
module WebPortal {

  datatype Config = Config(
    deviceId: string,
    wifiSSID: string,
    wifiPassword: string,
    mqttServer: string,
    mqttPort: int,
    mqttTopicSub: string,
    mqttTopicPub: string)

  const DefaultMqttPort: int := 1883

  const DefaultConfig: Config :=
    Config("", "", "", "", DefaultMqttPort, "topic/pump/command", "topic/pump/status")

  /**
   * The four fields without which the device cannot connect. A fresh portal's
   * defaults are never valid, so a device with nothing loaded opens the portal.
   */
  predicate IsConfigValid(c: Config)
    ensures IsConfigValid(c) ==> c != DefaultConfig
  {
    |c.deviceId| > 0 && |c.wifiSSID| > 0 && |c.wifiPassword| > 0 && |c.mqttServer| > 0
  }

  // ---- /config.json ----

  datatype Value = Str(text: string) | Num(n: int)

  /** The parsed JSON object, key to value. */
  type Document = map<string, Value>

  /** The file as `loadConfig` finds it. */
  datatype ConfigFile = Missing | Unparsable | Parsed(doc: Document)

  const ConfigKeys: set<string> :=
    {"deviceId", "wifiSSID", "wifiPassword", "mqttServer", "mqttPort", "mqttTopicSub", "mqttTopicPub"}

  /** The object `saveConfig` writes: one key per field. */
  function Encode(c: Config): (d: Document)
    ensures d.Keys == ConfigKeys
  {
    map["deviceId" := Str(c.deviceId), "wifiSSID" := Str(c.wifiSSID),
        "wifiPassword" := Str(c.wifiPassword), "mqttServer" := Str(c.mqttServer),
        "mqttPort" := Num(c.mqttPort), "mqttTopicSub" := Str(c.mqttTopicSub),
        "mqttTopicPub" := Str(c.mqttTopicPub)]
  }

  function TextField(d: Document, key: string): string
  {
    if key in d && d[key].Str? then d[key].text else ""
  }

  /** `doc["mqttPort"] | 1883`: the stored number, or 1883 when there is none. */
  function PortField(d: Document): int
  {
    if "mqttPort" in d && d["mqttPort"].Num? then d["mqttPort"].n else DefaultMqttPort
  }

  /** The fields `loadConfig` assigns from a parsed file. */
  function Decode(d: Document): (c: Config)
    ensures ("mqttPort" !in d || !d["mqttPort"].Num?) ==> c.mqttPort == DefaultMqttPort
  {
    Config(TextField(d, "deviceId"), TextField(d, "wifiSSID"), TextField(d, "wifiPassword"),
           TextField(d, "mqttServer"), PortField(d), TextField(d, "mqttTopicSub"),
           TextField(d, "mqttTopicPub"))
  }

  /** Loading what was saved gives back all seven fields. */
  lemma DecodeEncode(c: Config)
    ensures Decode(Encode(c)) == c
  {
    var d := Encode(c);
    assert d["mqttPort"] == Num(c.mqttPort);
    assert d["deviceId"] == Str(c.deviceId) && d["wifiSSID"] == Str(c.wifiSSID);
    assert d["wifiPassword"] == Str(c.wifiPassword) && d["mqttServer"] == Str(c.mqttServer);
    assert d["mqttTopicSub"] == Str(c.mqttTopicSub) && d["mqttTopicPub"] == Str(c.mqttTopicPub);
  }

  // ---- String::toInt, which is atol ----

  predicate IsSpace(c: char)
  {
    c == ' ' || 9 <= c as int <= 13
  }

  predicate IsDigit(c: char)
  {
    '0' <= c <= '9'
  }

  function SkipSpaces(s: string): (r: string)
    ensures |r| <= |s| && r == s[|s| - |r|..]
    ensures |r| > 0 ==> !IsSpace(r[0])
  {
    if |s| > 0 && IsSpace(s[0]) then SkipSpaces(s[1..]) else s
  }

  /** The value of the leading run of digits of `s`, appended to `acc`. */
  function DigitsValue(s: string, acc: nat): nat
  {
    if |s| > 0 && IsDigit(s[0]) then DigitsValue(s[1..], acc * 10 + (s[0] as int - '0' as int))
    else acc
  }

  /** Leading white space, an optional sign, then digits up to the first non-digit; 0 if none. */
  function ToInt(s: string): (r: int)
    ensures (forall i :: 0 <= i < |s| ==> !IsDigit(s[i])) ==> r == 0
  {
    var t := SkipSpaces(s);
    if |t| > 0 && t[0] == '-' then -(DigitsValue(t[1..], 0) as int)
    else if |t| > 0 && t[0] == '+' then DigitsValue(t[1..], 0)
    else DigitsValue(t, 0)
  }

  /** The decimal digits of `n`, as a browser sends a number field. */
  function Decimal(n: nat): (s: string)
    ensures |s| > 0 && forall i :: 0 <= i < |s| ==> IsDigit(s[i])
  {
    if n < 10 then [('0' as int + n) as char]
    else Decimal(n / 10) + [('0' as int + n % 10) as char]
  }

  lemma {:induction false} DigitsValueAppend(ds: string, c: char, acc: nat)
    requires forall i :: 0 <= i < |ds| ==> IsDigit(ds[i])
    requires IsDigit(c)
    ensures DigitsValue(ds + [c], acc) == DigitsValue(ds, acc) * 10 + (c as int - '0' as int)
    decreases |ds|
  {
    if |ds| == 0 {
      assert (ds + [c])[1..] == [];
    } else {
      assert (ds + [c])[1..] == ds[1..] + [c];
      DigitsValueAppend(ds[1..], c, acc * 10 + (ds[0] as int - '0' as int));
    }
  }

  lemma {:induction false} DigitsValueDecimal(n: nat)
    ensures DigitsValue(Decimal(n), 0) == n
  {
    if n >= 10 {
      DigitsValueDecimal(n / 10);
      DigitsValueAppend(Decimal(n / 10), ('0' as int + n % 10) as char, 0);
    }
  }

  /** Text that starts with a digit is read without skipping or a sign. */
  lemma ToIntOfDigits(s: string)
    requires |s| > 0 && IsDigit(s[0])
    ensures ToInt(s) == DigitsValue(s, 0)
  {
    assert !IsSpace(s[0]) && s[0] != '-' && s[0] != '+';
    assert SkipSpaces(s) == s;
  }

  /** A port typed as plain digits is read back as that number. */
  lemma ToIntDecimal(n: nat)
    ensures ToInt(Decimal(n)) == n
  {
    ToIntOfDigits(Decimal(n));
    DigitsValueDecimal(n);
  }

  // ---- The /save form ----

  /** The submitted form fields; `server.arg` reads an absent field as "". */
  type Form = map<string, string>

  function Arg(form: Form, name: string): string
  {
    if name in form then form[name] else ""
  }

  /**
   * The configuration as `handleSave` leaves it: every field taken from the
   * form, except that a blank password keeps the stored one.
   */
  function Submitted(current: Config, form: Form): (c: Config)
    ensures |current.wifiPassword| > 0 ==> |c.wifiPassword| > 0
    ensures c.deviceId == Arg(form, "deviceId") && c.mqttServer == Arg(form, "mqttServer")
  {
    var password := Arg(form, "wifiPassword");
    Config(Arg(form, "deviceId"), Arg(form, "wifiSSID"),
           if |password| > 0 then password else current.wifiPassword,
           Arg(form, "mqttServer"), ToInt(Arg(form, "mqttPort")),
           Arg(form, "mqttTopicSub"), Arg(form, "mqttTopicPub"))
  }

  datatype SaveVerdict = PasswordRequired | FieldsRequired | Proceed

  /** Which check of `handleSave`, if any, rejects the submission with status 400. */
  function Verdict(current: Config, form: Form): (v: SaveVerdict)
    ensures v == PasswordRequired ==> Submitted(current, form).wifiPassword == ""
    ensures v == FieldsRequired ==> |Submitted(current, form).wifiPassword| > 0
  {
    var c := Submitted(current, form);
    if |Arg(form, "wifiPassword")| == 0 && |current.wifiPassword| == 0 then PasswordRequired
    else if |c.deviceId| == 0 || |c.wifiSSID| == 0 || |c.mqttServer| == 0 then FieldsRequired
    else Proceed
  }

  /**
   * A submission gets past both checks exactly when the configuration it
   * leaves is valid, so only valid configurations are ever saved.
   */
  lemma ProceedIffValid(current: Config, form: Form)
    ensures Verdict(current, form) == Proceed <==> IsConfigValid(Submitted(current, form))
  {
  }

  /**
   * A non-blank password replaces the stored one and a blank one keeps it, so
   * once a password is stored no submission can clear it.
   */
  lemma PasswordNeverCleared(current: Config, form: Form)
    ensures var p := Submitted(current, form).wifiPassword;
            && (|Arg(form, "wifiPassword")| > 0 ==> p == Arg(form, "wifiPassword"))
            && (|Arg(form, "wifiPassword")| == 0 ==> p == current.wifiPassword)
            && (|current.wifiPassword| > 0 ==> |p| > 0)
  {
  }

  /**
   * A rejected submission still overwrites the fields in memory: the
   * configuration left behind is the submitted one, not the previous one.
   */
  lemma RejectedSubmissionOverwrites(current: Config, form: Form)
    requires Verdict(current, form) != Proceed
    ensures var c := Submitted(current, form);
            && c.deviceId == Arg(form, "deviceId") && c.wifiSSID == Arg(form, "wifiSSID")
            && c.mqttServer == Arg(form, "mqttServer")
            && !IsConfigValid(c)
  {
  }

  /** The port field typed as digits ends up as that number. */
  lemma SubmittedPort(current: Config, form: Form, port: nat)
    requires Arg(form, "mqttPort") == Decimal(port)
    ensures Submitted(current, form).mqttPort == port
  {
    ToIntDecimal(port);
  }

  // ---- The portal object ----

  /** Calls that bring the access point and web server up or down. */
  datatype RadioCall = Up | Down

  class Portal {
    var portalActive: bool
    var config: Config
    /** `/config.json` on the flash file system. */
    var file: ConfigFile
    /** The start and stop calls issued to the access point and web server so far. */
    ghost var radio: seq<RadioCall>

    /** The calls alternate, starting with `Up`, and the flag says which came last. */
    ghost predicate Valid()
      reads this
    {
      && (forall i :: 0 <= i < |radio| ==> radio[i] == (if i % 2 == 0 then Up else Down))
      && portalActive == (|radio| % 2 == 1)
    }

    constructor (stored: ConfigFile)
      ensures Valid() && !portalActive && radio == []
      ensures config == DefaultConfig && file == stored
    {
      portalActive := false;
      config := DefaultConfig;
      file := stored;
      radio := [];
    }

    method StartPortal()
      requires Valid()
      modifies this`portalActive, this`radio
      ensures Valid() && portalActive
      ensures radio == if old(portalActive) then old(radio) else old(radio) + [Up]
    {
      if portalActive {
        return;
      }
      radio := radio + [Up];
      portalActive := true;
    }

    method StopPortal()
      requires Valid()
      modifies this`portalActive, this`radio
      ensures Valid() && !portalActive
      ensures radio == if old(portalActive) then old(radio) + [Down] else old(radio)
    {
      if !portalActive {
        return;
      }
      radio := radio + [Down];
      portalActive := false;
    }

    method IsPortalActive() returns (active: bool)
      requires Valid()
      ensures active <==> |radio| % 2 == 1
    {
      active := portalActive;
    }

    method LoadConfig() returns (ok: bool)
      modifies this`config
      ensures ok == file.Parsed?
      ensures config == if ok then Decode(file.doc) else old(config)
    {
      match file
      case Missing =>
        ok := false;
      case Unparsable =>
        ok := false;
      case Parsed(doc) =>
        config := config.(deviceId := TextField(doc, "deviceId"));
        config := config.(wifiSSID := TextField(doc, "wifiSSID"));
        config := config.(wifiPassword := TextField(doc, "wifiPassword"));
        config := config.(mqttServer := TextField(doc, "mqttServer"));
        config := config.(mqttPort := PortField(doc));
        config := config.(mqttTopicSub := TextField(doc, "mqttTopicSub"));
        config := config.(mqttTopicPub := TextField(doc, "mqttTopicPub"));
        ok := true;
    }

    /** `canOpen` says whether the file system let the file be created. */
    method SaveConfig(canOpen: bool) returns (ok: bool)
      modifies this`file
      ensures ok == canOpen
      ensures file == if canOpen then Parsed(Encode(config)) else old(file)
    {
      if !canOpen {
        return false;
      }
      file := Parsed(Encode(config));
      ok := true;
    }

    /** `handleSave`; the result is the HTTP status code sent back. */
    method HandleSave(form: Form, canOpen: bool) returns (code: nat)
      modifies this`config, this`file
      ensures config == Submitted(old(config), form)
      ensures code == 400 <==> Verdict(old(config), form) != Proceed
      ensures code == 400 ==> file == old(file)
      ensures code != 400 ==> IsConfigValid(config)
      ensures code != 400 ==> code == (if canOpen then 200 else 500)
      ensures code == 200 ==> file == Parsed(Encode(config))
      ensures code == 500 ==> file == old(file)
    {
      ghost var before := config;
      config := config.(deviceId := Arg(form, "deviceId"));
      config := config.(wifiSSID := Arg(form, "wifiSSID"));
      var newPassword := Arg(form, "wifiPassword");
      config := config.(mqttServer := Arg(form, "mqttServer"));
      config := config.(mqttPort := ToInt(Arg(form, "mqttPort")));
      config := config.(mqttTopicSub := Arg(form, "mqttTopicSub"));
      config := config.(mqttTopicPub := Arg(form, "mqttTopicPub"));

      if |newPassword| > 0 {
        config := config.(wifiPassword := newPassword);
      } else if |config.wifiPassword| == 0 {
        return 400;
      }

      if |config.deviceId| == 0 || |config.wifiSSID| == 0 || |config.mqttServer| == 0 {
        return 400;
      }

      ProceedIffValid(before, form);
      var saved := SaveConfig(canOpen);
      code := if saved then 200 else 500;
    }

    /** Saving and then loading again leaves the configuration as it was. */
    method SaveThenLoad() returns (ok: bool)
      modifies this`file, this`config
      ensures ok && config == old(config)
      ensures file == Parsed(Encode(config))
    {
      var saved := SaveConfig(true);
      ok := LoadConfig();
      DecodeEncode(old(config));
    }
  }
}
