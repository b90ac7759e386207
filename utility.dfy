/** The monitoring SDK path holder and the driver path built from it
    (src/Utility.cpp). Wide strings are sequences of characters; a C wide
    string is the characters before its terminator, so it holds no '\0'. */
module Utility {
  import opened Wrappers

  /** The content of a NUL-terminated wide string. */
  type CString = s: string | '\0' !in s

  /** `DRIVER_FILE_PATH_64`, appended to the SDK path as it is. */
  const DriverFilePath: CString := "bin\\AMDRyzenMasterDriver.sys"

  /** The length of the local copy buffer in GetDriverPath. */
  const DriverPathCapacity: nat := 200

  /** What `%s` reads from a buffer: everything before the first '\0'. */
  function Terminated(buf: seq<char>): (s: CString)
    ensures |s| <= |buf| && s == buf[..|s|]
    ensures |s| < |buf| ==> buf[|s|] == '\0'
  {
    if buf == [] || buf[0] == '\0' then [] else [buf[0]] + Terminated(buf[1..])
  }

  /** A string followed by its terminator reads back as itself. */
  lemma {:induction false} TerminatedPrefix(s: CString, rest: seq<char>)
    ensures Terminated(s + ['\0'] + rest) == s
    decreases |s|
  {
    if s == [] {
      assert (s + ['\0'] + rest)[0] == '\0';
    } else {
      assert (s + ['\0'] + rest)[1..] == s[1..] + ['\0'] + rest;
      TerminatedPrefix(s[1..], rest);
      assert [s[0]] + s[1..] == s;
    }
  }

  /** The global `g_monitor_sdk_path`. */
  class MonitorSdkPath {
    var path: CString

    constructor ()
      ensures path == []
    {
      path := [];
    }

    /** SetMonitorSdkPath: a null or empty argument clears the path, any
        other is stored. */
    method Set(p: Option<CString>)
      modifies this
      ensures path == if p.Some? && p.value != [] then p.value else []
    {
      if p.Some? && p.value != [] {
        path := p.value;
      } else {
        path := [];
      }
    }

    /** GetMonitorSdkPath: null exactly when no path is stored. */
    function Get(): (r: Option<CString>)
      reads this
      ensures r.None? <==> path == []
      ensures r.Some? ==> r.value == path
    {
      if path == [] then None else Some(path)
    }

    /** GetDriverPath: fails without an SDK path; otherwise copies the path
        into a 200-character local buffer, terminates it and formats the
        buffer followed by the driver file name. None is the `false` return,
        which leaves the caller's buffer untouched. A path with no room for
        its terminator in the buffer is refused as well: the source has no
        such check and writes past the buffer (see SourceWrites). */
    method GetDriverPath() returns (r: Option<string>)
      ensures r.None? <==> Get().None? || !FitsDriverBuffer(path)
      ensures r.Some? ==> r.value == Get().value + DriverFilePath
    {
      var temp := Get();
      if temp.None? {
        return None;
      }
      var pTemp := temp.value;
      if !FitsDriverBuffer(pTemp) {
        return None;
      }
      var driverPath := new char[DriverPathCapacity](_ => '\0');
      var length := |pTemp|;
      for i := 0 to length
        invariant driverPath[..i] == pTemp[..i]
        invariant forall k :: i <= k < driverPath.Length ==> driverPath[k] == '\0'
      {
        driverPath[i] := pTemp[i];
      }
      driverPath[length] := '\0';
      assert driverPath[..] == pTemp + ['\0'] + driverPath[length + 1..];
      TerminatedPrefix(pTemp, driverPath[length + 1..]);
      r := Some(Terminated(driverPath[..]) + DriverFilePath);
    }
  }

  /** The path and its terminator fit the local buffer of GetDriverPath. */
  predicate FitsDriverBuffer(path: CString)
  {
    |path| < DriverPathCapacity
  }

  /** The buffer indices GetDriverPath writes as the source has it, with no
      length check and in the order they are written: `wcsncpy` writes one
      character per index below the length, then the terminator goes at
      index `length`. */
  function SourceWrites(path: CString): (w: seq<nat>)
    ensures |w| == |path| + 1 && w[|path|] == |path|
    ensures forall i :: 0 <= i < |w| ==> w[i] == i
  {
    seq(|path| + 1, i => i)
  }

  /** Every index the source writes lies in the buffer exactly when the path
      fits; a path of 200 characters or more puts the terminator at index
      200 or later, past the end of `driverPath[200]`. */
  lemma SourceWritesInBufferIff(path: CString)
    ensures (forall i :: 0 <= i < |SourceWrites(path)| ==> SourceWrites(path)[i] < DriverPathCapacity)
      <==> FitsDriverBuffer(path)
  {
    var w := SourceWrites(path);
    if !FitsDriverBuffer(path) {
      assert w[|path|] >= DriverPathCapacity;
    }
  }

  /** A concrete overflowing input: a 200-character path, whose terminator
      the source writes at index 200. */
  lemma LongPathOverflows()
    ensures var path: CString := seq(200, _ => 'a');
      SourceWrites(path)[200] == 200 && !FitsDriverBuffer(path)
  {
  }

  /** Setting a non-empty path makes Get return it; a null or empty one
      leaves Get returning null. */
  method SetThenGet(store: MonitorSdkPath, p: Option<CString>)
    modifies store
    ensures store.Get() == if p.Some? && p.value != [] then p else None
  {
    store.Set(p);
  }
}
