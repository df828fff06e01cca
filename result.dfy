/** The result envelope of pkg/result.go: `{Status, Msg, Data}` and the
    helpers that build it. `data == None` stands for Go's zero value of the
    payload type (nil for the `any` payload that requests return). */
module Results {
  import opened Wrappers
  import Constant

  datatype BaseResult<T> = BaseResult(status: string, msg: string, data: Option<T>)

  /** newBaseResult: the given status and message, payload left at its zero value. */
  function NewBaseResult<T>(status: string, msg: string): (r: BaseResult<T>)
    ensures r.status == status && r.msg == msg && r.data.None?
  {
    BaseResult(status, msg, None)
  }

  /** success: the SUCCESS entry of the code table, no payload. */
  function Success<T>(): (r: BaseResult<T>)
    ensures r.status == Constant.SUCCESS.Status() && r.msg == Constant.SUCCESS.Msg()
    ensures r.status == "M0200" && r.data.None?
  {
    NewBaseResult(Constant.SUCCESS.Status(), Constant.SUCCESS.Msg())
  }

  /** successWithData: the success envelope carrying `data`. */
  function SuccessWithData<T>(data: T): (r: BaseResult<T>)
    ensures r.status == Success<T>().status && r.msg == Success<T>().msg
    ensures r.data == Some(data)
  {
    var result := Success<T>();
    result.(data := Some(data))
  }

  /** fail: the FAILED entry of the code table, no payload. */
  function Fail<T>(): (r: BaseResult<T>)
    ensures r.status == Constant.FAILED.Status() && r.msg == Constant.FAILED.Msg()
    ensures r.status == "M0500" && r.data.None?
  {
    NewBaseResult(Constant.FAILED.Status(), Constant.FAILED.Msg())
  }

  /** failWithData: the failure envelope carrying `data`. */
  function FailWithData<T>(data: T): (r: BaseResult<T>)
    ensures r.status == Fail<T>().status && r.msg == Fail<T>().msg
    ensures r.data == Some(data)
  {
    var result := Fail<T>();
    result.(data := Some(data))
  }

  /** failWithResultCode: status and message taken from a code of the table. */
  function FailWithResultCode<T>(code: Constant.ResultCode): (r: BaseResult<T>)
    ensures r.status == code.Status() && r.msg == code.Msg() && r.data.None?
  {
    NewBaseResult(code.Status(), code.Msg())
  }

  /** failWithCodeAndMsg: exactly the given status and message. */
  function FailWithCodeAndMsg<T>(code: string, msg: string): (r: BaseResult<T>)
    ensures r.status == code && r.msg == msg && r.data.None?
  {
    NewBaseResult(code, msg)
  }

  /** setData: only the payload changes. */
  function SetData<T>(br: BaseResult<T>, data: T): (r: BaseResult<T>)
    ensures r.status == br.status && r.msg == br.msg && r.data == Some(data)
  {
    br.(data := Some(data))
  }

  /** The with-data helpers are the plain ones followed by setData. */
  lemma WithDataIsSetData<T>(data: T)
    ensures SuccessWithData(data) == SetData(Success(), data)
    ensures FailWithData(data) == SetData(Fail(), data)
  {
  }

  /** Success and failure envelopes are told apart by their status alone. */
  lemma SuccessDiffersFromFailure<T>(code: Constant.ResultCode)
    requires code in Constant.ALL_CODES && code != Constant.SUCCESS
    ensures Success<T>().status != FailWithResultCode<T>(code).status
    ensures Success<T>().status != Fail<T>().status
  {
    Constant.StatusesDistinct();
  }
}
