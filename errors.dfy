/** The uniform error record every tool of the server returns on failure, its
    dictionary form, and the six factories that build the records. */
module Errors {
  import Wrappers
  import opened Text
  import opened Numerals

  /** A coded error: a machine-readable code, a message for people and the
      action that should fix it. The record is immutable. */
  datatype CrawlerError = CrawlerError(code: string, message: string, action: string)

  /** A value of the dictionary a tool returns. */
  datatype Value = Flag(b: bool) | Str(s: string)

  /** The keys of the error dictionary. */
  const ErrorKeys: set<string> := {"error", "code", "message", "action"}

  /** to_dict: the flag error set to true, and the three fields of the record. */
  function ToDict(e: CrawlerError): (d: map<string, Value>)
    ensures d.Keys == ErrorKeys
  {
    map["error" := Flag(true), "code" := Str(e.code), "message" := Str(e.message), "action" := Str(e.action)]
  }

  /** Reads a dictionary back as an error record, when it has the shape
      ToDict gives. */
  function FromDict(d: map<string, Value>): Wrappers.Option<CrawlerError> {
    if d.Keys == ErrorKeys && d["error"] == Flag(true) &&
       d["code"].Str? && d["message"].Str? && d["action"].Str?
    then Wrappers.Some(CrawlerError(d["code"].s, d["message"].s, d["action"].s))
    else Wrappers.None
  }

  /** The dictionary is exactly the record: reading it back gives the record,
      and it is flagged as an error. */
  lemma ToDictRoundTrip(e: CrawlerError)
    ensures FromDict(ToDict(e)) == Wrappers.Some(e)
    ensures ToDict(e)["error"] == Flag(true)
  {
  }

  /** Two records with the same dictionary are the same record. */
  lemma ToDictInjective(a: CrawlerError, b: CrawlerError)
    requires ToDict(a) == ToDict(b)
    ensures a == b
  {
    ToDictRoundTrip(a);
    ToDictRoundTrip(b);
  }

  // ---------------------------------------------------------------------------
  // The six factories
  // ---------------------------------------------------------------------------

  const BrowserNotRunningCode := "BROWSER_NOT_RUNNING"
  const BrowserCrashedCode := "BROWSER_CRASHED"
  const LoginExpiredCode := "LOGIN_EXPIRED"
  const TimeoutCode := "TIMEOUT"
  const InvalidInputCode := "INVALID_INPUT"
  const CrawlFailedCode := "CRAWL_FAILED"

  /** The script a user runs to log in again. */
  const VerifyLoginScript := "scripts/verify_login.py"

  /** The fixed start of a crawl failure's message. */
  const CrawlFailedPrefix := "采集失败："

  /** The message the session and the not-running error share. */
  const NotRunningMessage := "浏览器未启动。请确保 MCP 服务正常运行后重试。"

  function BrowserNotRunningError(): (e: CrawlerError)
    ensures e.code == BrowserNotRunningCode && e.message == NotRunningMessage
  {
    CrawlerError(BrowserNotRunningCode, NotRunningMessage, "请重启 MCP 服务，或检查 Playwright 是否正确安装。")
  }

  function BrowserCrashedError(): (e: CrawlerError)
    ensures e.code == BrowserCrashedCode
  {
    CrawlerError(BrowserCrashedCode, "浏览器已崩溃且自动恢复失败。", "请重启 MCP 服务以恢复浏览器。")
  }

  /** The action names the login script. */
  function LoginExpiredError(): (e: CrawlerError)
    ensures e.code == LoginExpiredCode
    ensures Contains(e.action, VerifyLoginScript)
  {
    var before := "请在终端运行 `uv run python ";
    var after := "` 完成扫码登录，然后重启 MCP 服务。";
    ContainsInside(before, VerifyLoginScript, after);
    CrawlerError(LoginExpiredCode, "小红书登录态已失效，需要重新登录。", before + VerifyLoginScript + after)
  }

  /** The message names the tool and gives the seconds in decimal. */
  function TimeoutError(toolName: string, timeoutSeconds: int): (e: CrawlerError)
    ensures e.code == TimeoutCode
    ensures Contains(e.message, toolName)
    ensures Contains(e.message, IntToString(timeoutSeconds))
  {
    var seconds := IntToString(timeoutSeconds);
    var message := toolName + " 操作超时（" + seconds + " 秒）。";
    ContainsInside([], toolName, " 操作超时（" + seconds + " 秒）。");
    PrefixJoin3(toolName, " 操作超时（", seconds, " 秒）。");
    assert [] + toolName == toolName;
    ContainsInside(toolName + " 操作超时（", seconds, " 秒）。");
    CrawlerError(TimeoutCode, message, "请稍后重试，或减少采集数量（如 max_count / max_notes）。")
  }

  /** The message names the field and the reason; the action names the field. */
  function InvalidInputError(field: string, reason: string): (e: CrawlerError)
    ensures e.code == InvalidInputCode
    ensures Contains(e.message, field) && Contains(e.message, reason)
    ensures Contains(e.action, field)
  {
    var message := "参数 " + field + " 无效：" + reason;
    var action := "请检查 " + field + " 参数后重试。";
    ContainsInside("参数 ", field, " 无效：" + reason);
    assert message == "参数 " + field + (" 无效：" + reason);
    ContainsInside("参数 " + field + " 无效：", reason, []);
    assert message == "参数 " + field + " 无效：" + reason + [];
    ContainsInside("请检查 ", field, " 参数后重试。");
    CrawlerError(InvalidInputCode, message, action)
  }

  /** The message is the fixed prefix followed by the detail. */
  function CrawlFailedError(detail: string): (e: CrawlerError)
    ensures e.code == CrawlFailedCode
    ensures StartsWith(e.message, CrawlFailedPrefix)
    ensures Contains(e.message, detail)
  {
    ContainsInside(CrawlFailedPrefix, detail, []);
    assert CrawlFailedPrefix + detail + [] == CrawlFailedPrefix + detail;
    CrawlerError(CrawlFailedCode, CrawlFailedPrefix + detail, "请检查 URL 是否有效，或稍后重试。")
  }

  /** The detail a crawl failure's message carries. */
  function FailureDetail(message: string): string
    requires StartsWith(message, CrawlFailedPrefix)
  {
    message[|CrawlFailedPrefix|..]
  }

  /** The detail can be read back from the message, so different details give
      different messages. */
  lemma CrawlFailedDetail(detail: string)
    ensures FailureDetail(CrawlFailedError(detail).message) == detail
  {
    var m := CrawlFailedError(detail).message;
    assert m == CrawlFailedPrefix + detail;
    assert m[|CrawlFailedPrefix|..] == detail;
  }

  /** The codes of the six factories, in declaration order. */
  function FactoryCodes(toolName: string, seconds: int, field: string, reason: string, detail: string): seq<string> {
    [BrowserNotRunningError().code, BrowserCrashedError().code, LoginExpiredError().code,
     TimeoutError(toolName, seconds).code, InvalidInputError(field, reason).code, CrawlFailedError(detail).code]
  }

  /** Whatever their arguments, the six factories give six different codes. */
  lemma CodesDistinct(toolName: string, seconds: int, field: string, reason: string, detail: string)
    ensures var codes := FactoryCodes(toolName, seconds, field, reason, detail);
            |codes| == 6 && forall i, j :: 0 <= i < j < |codes| ==> codes[i] != codes[j]
  {
    var codes := FactoryCodes(toolName, seconds, field, reason, detail);
    assert codes == [BrowserNotRunningCode, BrowserCrashedCode, LoginExpiredCode, TimeoutCode, InvalidInputCode, CrawlFailedCode];
    assert |codes[0]| == 19 && |codes[1]| == 15 && |codes[2]| == 13;
    assert |codes[3]| == 7 && |codes[4]| == 13 && |codes[5]| == 12;
    assert codes[2][0] != codes[4][0];
  }
}
