/** The closed table of result codes of internal/constant/constants.go:
    ten immutable (status, message) pairs and their two getters. */
module Constant {

  datatype ResultCode = ResultCode(status: string, msg: string)
  {
    /** The status string stored in the code. */
    function Status(): string { status }

    /** The human-readable message stored in the code. */
    function Msg(): string { msg }
  }

  const SUCCESS := ResultCode("M0200", "操作成功")
  const TOO_MANY_REQUESTS := ResultCode("M0429", "请求次数过多，请稍后重试")
  const UNSUPPORTED_REQUEST_TYPE := ResultCode("M0430", "不支持的请求类型")
  const FAILED := ResultCode("M0500", "系统繁忙，请稍后重试")
  const VALIDATE_FAILED := ResultCode("M0555", "参数校验失败")
  const CALL_FAILED := ResultCode("M0511", "三方服务调用失败")
  const GET_INTERFACE_INFO_FAILED := ResultCode("M0512", "获取接口信息失败")
  const RESPONSE_CONVERSION_ERROR := ResultCode("M0513", "响应信息转换失败")
  const REQUEST_PARAM_NOT_NULL := ResultCode("M0514", "接口请求参数不能为空")
  const REQUEST_HEADER_NOT_NULL := ResultCode("M0515", "接口请求头不能为空")

  /** The whole table, in declaration order. */
  const ALL_CODES: seq<ResultCode> := [
    SUCCESS, TOO_MANY_REQUESTS, UNSUPPORTED_REQUEST_TYPE, FAILED, VALIDATE_FAILED,
    CALL_FAILED, GET_INTERFACE_INFO_FAILED, RESPONSE_CONVERSION_ERROR,
    REQUEST_PARAM_NOT_NULL, REQUEST_HEADER_NOT_NULL
  ]

  predicate IsDigit(c: char) { '0' <= c <= '9' }

  /** A status is the letter M followed by exactly four decimal digits. */
  predicate WellFormedStatus(s: string)
  {
    |s| == 5 && s[0] == 'M' && forall i :: 1 <= i < 5 ==> IsDigit(s[i])
  }

  /** The getters return exactly what the code was built from. */
  lemma GettersReturnFields(status: string, msg: string)
    ensures ResultCode(status, msg).Status() == status
    ensures ResultCode(status, msg).Msg() == msg
  {
  }

  /** No two codes of the table share a status string. */
  lemma StatusesDistinct()
    ensures |ALL_CODES| == 10
    ensures forall i, j :: 0 <= i < j < |ALL_CODES| ==> ALL_CODES[i].Status() != ALL_CODES[j].Status()
  {
  }

  /** Every status of the table has the shape M dddd. */
  lemma StatusesWellFormed()
    ensures forall i :: 0 <= i < |ALL_CODES| ==> WellFormedStatus(ALL_CODES[i].Status())
  {
  }

  /** The values `Send` relies on. */
  lemma TableValues()
    ensures SUCCESS.Status() == "M0200"
    ensures FAILED.Status() == "M0500"
    ensures CALL_FAILED.Status() == "M0511" && CALL_FAILED.Msg() == "三方服务调用失败"
    ensures RESPONSE_CONVERSION_ERROR.Status() == "M0513" && RESPONSE_CONVERSION_ERROR.Msg() == "响应信息转换失败"
    ensures REQUEST_PARAM_NOT_NULL.Status() == "M0514"
  {
  }
}
