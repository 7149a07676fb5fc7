/** The messages that a remote client sends to the service. */
module Messages {
  import opened Words
  import opened CallTree
  import opened Processes

  type Pid = int

  const MAX_NAME_LEN := 128

  /** A message as the service reads it. A threshold never changes anything that the model keeps. */
  datatype Message =
    | Entry(pid: Pid, tid: Tid, name: Name)
    | Exit(pid: Pid, tid: Tid, name: Name, elapsed: u64)
    | Threshold(pid: Pid, tid: Tid, name: Name, us: int)
    | ReportThread(pid: Pid, tid: Tid)
    | ReportProcess(pid: Pid)
    | CloseThread(pid: Pid, tid: Tid)
    | CloseProcess(pid: Pid)
    | Unknown(code: int)

  /** A name as it arrives: names are sent in a fixed buffer that keeps room for the closing zero. */
  function Cut(name: Name): (r: Name)
    ensures |r| == (if |name| < 127 then |name| else 127) && r <= name
  {
    if |name| < MAX_NAME_LEN then name else name[..MAX_NAME_LEN - 1]
  }

  function CutPath(p: Path): (q: Path)
    ensures |q| == |p| && forall i :: 0 <= i < |p| ==> q[i] == Cut(p[i])
  {
    seq(|p|, i requires 0 <= i < |p| => Cut(p[i]))
  }

  /** The characters of a buffer before its first zero. */
  function CString(buffer: seq<char>): Name {
    if buffer == [] || buffer[0] == '\0' then [] else [buffer[0]] + CString(buffer[1..])
  }

  lemma {:induction false} CStringOf(name: Name, rest: seq<char>)
    requires '\0' !in name && (rest == [] || rest[0] == '\0')
    ensures CString(name + rest) == name
  {
    if name == [] {
      assert name + rest == rest;
    } else {
      assert (name + rest)[1..] == name[1..] + rest;
      CStringOf(name[1..], rest);
    }
  }
}
