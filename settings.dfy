/**
 * `%comlset <key> <value>`: the one setting is `debug`, switched `on` or
 * `off`; the line is case-insensitive and whitespace-separated.
 */
module Settings {
  import opened Wrappers
  import opened Text

  /**
   * The three ways the line can be rejected. `WrongArity` is the `ValueError`
   * that unpacking `key, value = ...split()` raises for a line that does not
   * hold exactly two words.
   */
  datatype SettingError = WrongArity | BadDebugValue | UnknownSetting

  function Message(e: SettingError): string {
    match e
    case WrongArity => "expected exactly two words"
    case BadDebugValue => "Debug mode must be either on or off."
    case UnknownSetting => "Unknown setting."
  }

  /** The debug flag the words of a setting line ask for, or why they are rejected. */
  function Decide(ws: seq<string>): (r: Result<bool, SettingError>)
    ensures r == Success(true) <==> ws == ["debug", "on"]
    ensures r == Success(false) <==> ws == ["debug", "off"]
    ensures r == Failure(WrongArity) <==> |ws| != 2
    ensures r == Failure(UnknownSetting) <==> |ws| == 2 && ws[0] != "debug"
    ensures r == Failure(BadDebugValue) <==> |ws| == 2 && ws[0] == "debug" && ws[1] != "on" && ws[1] != "off"
  {
    if |ws| != 2 then Failure(WrongArity)
    else if ws[0] == "debug" then
      if ws[1] == "on" then Success(true)
      else if ws[1] == "off" then Success(false)
      else Failure(BadDebugValue)
    else Failure(UnknownSetting)
  }

  /** `key, value = line.lower().strip().split()` followed by the checks on them. */
  function ParseSetting(line: string): (r: Result<bool, SettingError>)
    ensures var ws := Words(Strip(Lower(line)));
      && (r == Success(true) <==> ws == ["debug", "on"])
      && (r == Success(false) <==> ws == ["debug", "off"])
      && (r == Failure(WrongArity) <==> |ws| != 2)
      && (r == Failure(UnknownSetting) <==> |ws| == 2 && ws[0] != "debug")
      && (r == Failure(BadDebugValue) <==> |ws| == 2 && ws[0] == "debug" && ws[1] != "on" && ws[1] != "off")
  {
    Decide(Words(Strip(Lower(line))))
  }

  /** The module-wide debug switch `comlset` updates. */
  class DebugSwitch {
    var debug: bool

    constructor (initial: bool)
      ensures debug == initial
    {
      debug := initial;
    }

    /** `%comlset line`: updates the switch, or leaves it alone and reports the error. */
    method Set(line: string) returns (r: Result<(), SettingError>)
      modifies this
      ensures ParseSetting(line).Success? ==> r.Success? && debug == ParseSetting(line).value
      ensures ParseSetting(line).Failure? ==> r == Failure(ParseSetting(line).error) && debug == old(debug)
    {
      var words := Words(Strip(Lower(line)));
      if |words| != 2 {
        return Failure(WrongArity);
      }
      var key, value := words[0], words[1];
      if key == "debug" {
        if value == "on" {
          debug := true;
        } else if value == "off" {
          debug := false;
        } else {
          return Failure(BadDebugValue);
        }
      } else {
        return Failure(UnknownSetting);
      }
      r := Success(());
    }
  }
}
