/** The entry screen: the device-address field's key filter and the
    connect handler that probes `GET http://<device>:8081/check`. */
module Home {
  import opened Text
  import opened Browser

  /** Keys the address field always lets through. */
  const AllowedKeys: seq<string> := ["Backspace", "Delete", "ArrowLeft", "ArrowRight", "Tab", "Enter", "."]

  const WrongDeviceMessage := "Wrong Device IP Address. Please enter the correct one."
  const ConnectErrorMessage := "Error connecting to device. Please check your network connection."

  /** `!(key < "0" || key > "9")`, with JavaScript's string order. What it
      admits: every key whose first character is `0` to `8`, whatever follows
      it, and of the keys starting with `9` only `"9"` itself. */
  predicate InDigitRange(key: string): (r: bool)
    ensures r <==> (|key| >= 1 && '0' <= key[0] <= '8') || key == "9"
  {
    LessThanChar(key, '0');
    CharLessThan('9', key);
    assert |key| == 1 ==> key == [key[0]];
    !Less(key, "0") && !Less("9", key)
  }

  /** The `onKeyDown` test: the handler calls `e.preventDefault()` exactly
      when the key is not allow-listed, lies outside the lexicographic digit
      range, and is not Ctrl+a. */
  predicate Prevented(key: string, ctrlKey: bool): (r: bool)
    ensures r <==>
              && key !in AllowedKeys
              && !((|key| >= 1 && '0' <= key[0] <= '8') || key == "9")
              && !(ctrlKey && key == "a")
  {
    key !in AllowedKeys && !InDigitRange(key) && !(ctrlKey && key == "a")
  }

  /** Every single digit is let through. */
  lemma DigitsAllowed(d: char, ctrlKey: bool)
    requires IsDigit(d)
    ensures !Prevented([d], ctrlKey)
  {
  }

  /** Each allow-listed key is let through, whatever the modifiers. */
  lemma AllowListAllowed(key: string, ctrlKey: bool)
    requires key in AllowedKeys
    ensures !Prevented(key, ctrlKey)
  {
  }

  /** Ctrl+a (select all) is let through. */
  lemma SelectAllAllowed()
    ensures !Prevented("a", true)
  {
  }

  /** Keys that are stopped: a letter without Ctrl, a minus sign, a modifier
      key on its own, a two-character key starting with `9`, the empty key. */
  lemma PreventedExamples()
    ensures Prevented("a", false)
    ensures Prevented("-", true)
    ensures Prevented("Shift", false)
    ensures Prevented("9a", false)
    ensures Prevented("", true)
  {
  }

  function CheckUrl(device: string): string {
    "http://" + device + ":8081/check"
  }

  /** How the probe `GET http://<device>:8081/check` ended. */
  datatype Probe =
    | Answered(status: int)   // the request resolved with this HTTP status
    | Threw                   // the request rejected (network error, non-2xx status)

  class HomePage {
    const browser: Browser
    /** `device`, the text in the address field. */
    var device: string
    /** `deviceError`, the message shown above the form, if any. */
    var deviceError: Option<string>
    /** Clears of `deviceError` scheduled and not yet run. */
    var pendingClears: nat

    constructor (browser: Browser)
      ensures this.browser == browser && device == "" && deviceError == None && pendingClears == 0
    {
      this.browser := browser;
      device := "";
      deviceError := None;
      pendingClears := 0;
    }

    /** `handleDeviceConnection`, with the probe's outcome passed in; the
        result is the URL probed. On status 200 the address is stored under
        `device` and the page goes to `/dashboard`. Any other status, or a
        failed request, shows an error and schedules its clear; nothing is
        stored then and the page stays. */
    method HandleDeviceConnection(probe: Probe) returns (url: string)
      modifies this`deviceError, this`pendingClears, browser
      ensures url == CheckUrl(device)
      ensures probe == Answered(200) ==>
                && browser.storage == old(browser.storage)["device" := device]
                && browser.location == "/dashboard"
                && deviceError == old(deviceError) && pendingClears == old(pendingClears)
      ensures probe.Answered? && probe.status != 200 ==>
                && deviceError == Some(WrongDeviceMessage) && pendingClears == old(pendingClears) + 1
                && browser.storage == old(browser.storage) && browser.location == old(browser.location)
      ensures probe.Threw? ==>
                && deviceError == Some(ConnectErrorMessage) && pendingClears == old(pendingClears) + 1
                && browser.storage == old(browser.storage) && browser.location == old(browser.location)
    {
      url := CheckUrl(device);
      match probe
      case Answered(status) =>
        if status == 200 {
          browser.storage := browser.storage["device" := device];
          browser.location := "/dashboard";
        } else {
          deviceError := Some(WrongDeviceMessage);
          pendingClears := pendingClears + 1;
        }
      case Threw =>
        deviceError := Some(ConnectErrorMessage);
        pendingClears := pendingClears + 1;
    }

    /** A scheduled `setTimeout(() => setDeviceError(null), 3000)` fires. */
    method ClearError()
      requires pendingClears > 0
      modifies this`deviceError, this`pendingClears
      ensures deviceError == None && pendingClears == old(pendingClears) - 1
    {
      deviceError := None;
      pendingClears := pendingClears - 1;
    }
  }
}
