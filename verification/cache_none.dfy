/** The cache frontend that does nothing: content expires after one
    second, output is never buffered and data is stored as it is. */
module CacheFrontendNone {
  import opened Php

  datatype NoneFrontend = NoneFrontend

  function GetLifetime(f: NoneFrontend): (r: int)
    ensures r == 1
  {
    1
  }

  function IsBuffering(f: NoneFrontend): (r: bool)
    ensures !r
  {
    false
  }

  /** `start`, `stop` and `getContent` have empty bodies: the frontend is
      unchanged and `getContent` returns null. */
  function Start(f: NoneFrontend): NoneFrontend {
    f
  }

  function Stop(f: NoneFrontend): NoneFrontend {
    f
  }

  function GetContent(f: NoneFrontend): Value {
    Null
  }

  function BeforeStore(f: NoneFrontend, data: Value): Value {
    data
  }

  function AfterRetrieve(f: NoneFrontend, data: Value): Value {
    data
  }

  /** Data comes back from the store exactly as it went in, and no call
      starts buffering. */
  lemma StoreRoundTrip(f: NoneFrontend, data: Value)
    ensures AfterRetrieve(f, BeforeStore(f, data)) == data
    ensures BeforeStore(f, data) == data && AfterRetrieve(f, data) == data
    ensures !IsBuffering(Start(f)) && !IsBuffering(Stop(f)) && GetContent(Start(f)) == Null
  {
  }
}
