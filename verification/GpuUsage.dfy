/** GPU readings per process and device, joined into one figure per process. */
module GpuUsage {
  import opened Sequences
  import opened Wrappers

  /** One reading; a driver may give the memory, the utilisation, both or neither. */
  datatype Sample = Sample(device: nat, pid: int, memory: Option<nat>, utilization: Option<int>)

  /** The figures of a process. A negative utilisation says that there is none. */
  datatype Usage = Usage(utilization: int, memory: nat)

  const UNKNOWN := Usage(-1, 0)

  datatype Key = Key(device: nat, pid: int)

  datatype Reading = Reading(memory: Option<nat>, utilization: Option<int>)

  predicate Counts(s: Sample, key: Key) {
    s.pid > 0 && s.pid == key.pid && s.device == key.device
  }

  function LargerMemory(a: Option<nat>, b: Option<nat>): Option<nat> {
    if b.None? then a else if a.None? || a.value < b.value then b else a
  }

  function LargerUtilization(a: Option<int>, b: Option<int>): Option<int> {
    if b.None? then a else if a.None? || a.value < b.value then b else a
  }

  function JoinReadings(a: Reading, s: Sample): Reading {
    Reading(LargerMemory(a.memory, s.memory), LargerUtilization(a.utilization, s.utilization))
  }

  /** The largest readings of a process on a device. */
  function Largest(samples: seq<Sample>, key: Key): Reading {
    if samples == [] then Reading(None, None)
    else
      var rest, last := Largest(samples[..|samples| - 1], key), samples[|samples| - 1];
      if Counts(last, key) then JoinReadings(rest, last) else rest
  }

  /** One more device's readings added to the figures of a process. */
  function AddReading(total: Usage, r: Reading): Usage {
    Usage(if r.utilization.Some? then Greatest(total.utilization, 0) + r.utilization.value else total.utilization,
          total.memory + if r.memory.Some? then r.memory.value else 0)
  }

  /** The figures of a process from the devices below n, in their order. */
  function JoinedUpTo(samples: seq<Sample>, pid: int, n: nat): Usage {
    if n == 0 then UNKNOWN else AddReading(JoinedUpTo(samples, pid, n - 1), Largest(samples, Key(n - 1, pid)))
  }

  /** Every device is below this. */
  function DeviceBound(samples: seq<Sample>): (n: nat)
    ensures forall s :: s in samples ==> s.device < n
  {
    if samples == [] then 0
    else
      var rest, last := DeviceBound(samples[..|samples| - 1]), samples[|samples| - 1].device + 1;
      assert forall s :: s in samples ==> s in samples[..|samples| - 1] || s == samples[|samples| - 1];
      if rest < last then last else rest
  }

  function Joined(samples: seq<Sample>, pid: int): Usage {
    JoinedUpTo(samples, pid, DeviceBound(samples))
  }

  function Pids(samples: seq<Sample>): set<int> {
    set s | s in samples && s.pid > 0 :: s.pid
  }

  // ----- the two loops

  predicate Precedes(a: Key, b: Key) {
    a.device < b.device || (a.device == b.device && a.pid < b.pid)
  }

  lemma FirstKey(keys: set<Key>) returns (first: Key)
    requires keys != {}
    ensures first in keys && forall k :: k in keys && k != first ==> Precedes(first, k)
    decreases |keys|
  {
    var k :| k in keys;
    if keys == {k} {
      first := k;
    } else {
      var rest := FirstKey(keys - {k});
      first := if Precedes(rest, k) then rest else k;
      forall x | x in keys && x != first
        ensures Precedes(first, x)
      {
        assert x == k || x in keys - {k};
      }
    }
  }

  predicate Sorted(keys: seq<Key>) {
    forall i, j :: 0 <= i < j < |keys| ==> Precedes(keys[i], keys[j])
  }

  /** The keys in the order in which an ordered map is read. */
  method InOrder(keys: set<Key>) returns (r: seq<Key>)
    ensures Sorted(r) && forall k :: k in r <==> k in keys
  {
    r := [];
    var rest := keys;
    while rest != {}
      invariant Sorted(r) && rest <= keys
      invariant forall i, k :: 0 <= i < |r| && k in rest ==> Precedes(r[i], k)
      invariant forall k :: k in keys <==> k in rest || k in r
      decreases rest
    {
      ghost var first := FirstKey(rest);
      var next :| next in rest && forall k :: k in rest && k != next ==> Precedes(next, k);
      r := r + [next];
      rest := rest - {next};
    }
  }

  predicate HasSample(samples: seq<Sample>, key: Key) {
    exists s :: s in samples && Counts(s, key)
  }

  method PerDevice(samples: seq<Sample>) returns (perDevice: map<Key, Reading>)
    ensures forall k :: k in perDevice <==> HasSample(samples, k)
    ensures forall k :: k in perDevice ==> perDevice[k] == Largest(samples, k)
  {
    perDevice := map[];
    for i := 0 to |samples|
      invariant forall k :: k in perDevice <==> HasSample(samples[..i], k)
      invariant forall k :: k in perDevice ==> perDevice[k] == Largest(samples[..i], k)
    {
      var sample := samples[i];
      ghost var before := samples[..i];
      assert samples[..i + 1] == before + [sample];
      OneMoreSample(before, sample);
      if sample.pid > 0 {
        var key := Key(sample.device, sample.pid);
        var entry := if key in perDevice then perDevice[key] else Reading(None, None);
        perDevice := perDevice[key := JoinReadings(entry, sample)];
      }
    }
    assert samples[..|samples|] == samples;
  }

  lemma OneMoreSample(samples: seq<Sample>, s: Sample)
    ensures forall k :: HasSample(samples + [s], k) <==> HasSample(samples, k) || Counts(s, k)
    ensures forall k :: Largest(samples + [s], k) ==
                        if Counts(s, k) then JoinReadings(Largest(samples, k), s) else Largest(samples, k)
    ensures forall k :: !HasSample(samples, k) ==> Largest(samples, k) == Reading(None, None)
  {
    assert (samples + [s])[..|samples|] == samples;
    forall k
      ensures HasSample(samples + [s], k) <==> HasSample(samples, k) || Counts(s, k)
    {
      assert s in samples + [s];
      if HasSample(samples, k) {
        var t :| t in samples && Counts(t, k);
        assert t in samples + [s];
      }
    }
    forall k | !HasSample(samples, k)
      ensures Largest(samples, k) == Reading(None, None)
    {
      NoSample(samples, k);
    }
  }

  lemma {:induction false} NoSample(samples: seq<Sample>, key: Key)
    requires !HasSample(samples, key)
    ensures Largest(samples, key) == Reading(None, None)
    decreases |samples|
  {
    if samples != [] {
      assert samples[|samples| - 1] in samples;
      assert forall s :: s in samples[..|samples| - 1] ==> s in samples;
      NoSample(samples[..|samples| - 1], key);
    }
  }

  /** Of a process's keys, those before j are for devices below n and the others are not. */
  predicate SplitAt(keys: seq<Key>, j: nat, pid: int, n: nat)
    requires j <= |keys|
  {
    && (forall i :: 0 <= i < j && keys[i].pid == pid ==> keys[i].device < n)
    && (forall i :: j <= i < |keys| && keys[i].pid == pid ==> n <= keys[i].device)
  }

  function Figures(usage: map<int, Usage>, pid: int): Usage {
    if pid in usage then usage[pid] else UNKNOWN
  }

  ghost predicate JoinedSoFar(samples: seq<Sample>, keys: seq<Key>, j: nat, usage: map<int, Usage>)
    requires j <= |keys|
  {
    && (forall pid :: pid in usage <==> exists i :: 0 <= i < j && keys[i].pid == pid)
    && (forall pid, n: nat :: SplitAt(keys, j, pid, n) ==> Figures(usage, pid) == JoinedUpTo(samples, pid, n))
  }

  /** Devices without readings change nothing. */
  lemma {:induction false} Gap(samples: seq<Sample>, pid: int, a: nat, b: nat)
    requires a <= b && forall d :: a <= d < b ==> !HasSample(samples, Key(d, pid))
    ensures JoinedUpTo(samples, pid, b) == JoinedUpTo(samples, pid, a)
    decreases b
  {
    if a < b {
      NoSample(samples, Key(b - 1, pid));
      Gap(samples, pid, a, b - 1);
    }
  }

  lemma JoinBegins(samples: seq<Sample>, keys: seq<Key>)
    requires forall k :: k in keys <==> HasSample(samples, k)
    ensures JoinedSoFar(samples, keys, 0, map[])
  {
    forall pid, n: nat | SplitAt(keys, 0, pid, n)
      ensures JoinedUpTo(samples, pid, n) == UNKNOWN
    {
      Gap(samples, pid, 0, n);
    }
  }

  lemma JoinStep(samples: seq<Sample>, keys: seq<Key>, j: nat, usage: map<int, Usage>)
    requires Sorted(keys) && (forall k :: k in keys <==> HasSample(samples, k))
    requires j < |keys| && JoinedSoFar(samples, keys, j, usage)
    ensures var pid := keys[j].pid;
            JoinedSoFar(samples, keys, j + 1, usage[pid := AddReading(Figures(usage, pid), Largest(samples, keys[j]))])
  {
    hide Largest, AddReading;
    var key := keys[j];
    var later := usage[key.pid := AddReading(Figures(usage, key.pid), Largest(samples, key))];
    assert SplitAt(keys, j, key.pid, key.device);
    assert later[key.pid] == JoinedUpTo(samples, key.pid, key.device + 1);
    forall pid, n: nat | SplitAt(keys, j + 1, pid, n)
      ensures Figures(later, pid) == JoinedUpTo(samples, pid, n)
    {
      if pid == key.pid {
        forall d | key.device + 1 <= d < n
          ensures !HasSample(samples, Key(d, pid))
        {
          assert Key(d, pid) !in keys;
        }
        Gap(samples, pid, key.device + 1, n);
      } else {
        assert SplitAt(keys, j, pid, n);
      }
    }
  }

  /** The figures of every process with a positive id that appears in the readings. */
  method AggregateGpuProcesses(samples: seq<Sample>) returns (usage: map<int, Usage>)
    ensures usage.Keys == Pids(samples)
    ensures forall pid :: pid in usage ==> usage[pid] == Joined(samples, pid)
  {
    hide JoinedSoFar, Largest, AddReading, HasSample;
    var perDevice := PerDevice(samples);
    var keys := InOrder(perDevice.Keys);
    usage := map[];
    JoinBegins(samples, keys);
    for j := 0 to |keys|
      invariant JoinedSoFar(samples, keys, j, usage)
    {
      var key := keys[j];
      JoinStep(samples, keys, j, usage);
      var total := if key.pid in usage then usage[key.pid] else UNKNOWN;
      usage := usage[key.pid := AddReading(total, perDevice[key])];
    }
    JoinEnds(samples, keys, usage);
  }

  lemma JoinEnds(samples: seq<Sample>, keys: seq<Key>, usage: map<int, Usage>)
    requires JoinedSoFar(samples, keys, |keys|, usage)
    requires forall k :: k in keys <==> HasSample(samples, k)
    ensures usage.Keys == Pids(samples)
    ensures forall pid :: pid in usage ==> usage[pid] == Joined(samples, pid)
  {
    forall pid
      ensures pid in usage <==> pid in Pids(samples)
    {
      if pid in usage {
        var i :| 0 <= i < |keys| && keys[i].pid == pid;
        assert keys[i] in keys;
      }
      if s :| s in samples && s.pid > 0 && s.pid == pid {
        assert Counts(s, Key(s.device, pid)) && HasSample(samples, Key(s.device, pid));
        var i :| 0 <= i < |keys| && keys[i] == Key(s.device, pid);
      }
    }
    forall pid | pid in usage
      ensures usage[pid] == Joined(samples, pid)
    {
      forall i | 0 <= i < |keys|
        ensures keys[i].device < DeviceBound(samples)
      {
        assert keys[i] in keys;
      }
      assert SplitAt(keys, |keys|, pid, DeviceBound(samples));
    }
  }

  // ----- what the figures mean

  function SumMemory(samples: seq<Sample>, pid: int, n: nat): nat {
    if n == 0 then 0
    else
      var r := Largest(samples, Key(n - 1, pid)).memory;
      SumMemory(samples, pid, n - 1) + if r.Some? then r.value else 0
  }

  function SumUtilization(samples: seq<Sample>, pid: int, n: nat): int {
    if n == 0 then 0
    else
      var r := Largest(samples, Key(n - 1, pid)).utilization;
      SumUtilization(samples, pid, n - 1) + if r.Some? then r.value else 0
  }

  predicate Measured(samples: seq<Sample>, pid: int, n: nat) {
    n > 0 && (Measured(samples, pid, n - 1) || Largest(samples, Key(n - 1, pid)).utilization.Some?)
  }

  /** Whenever a device adds a figure, the sum of those before it is not negative. */
  predicate NeverDips(samples: seq<Sample>, pid: int, n: nat) {
    n > 0 ==>
      && NeverDips(samples, pid, n - 1)
      && (Largest(samples, Key(n - 1, pid)).utilization.Some? ==> SumUtilization(samples, pid, n - 1) >= 0)
  }

  /**
   The memory is always the sum over devices of the largest reading. Without any utilisation
   reading there is no figure; with one, it is the sum over devices of the largest reading exactly
   when no sum on the way is negative, and too large otherwise.
   */
  lemma {:induction false} FiguresAreSums(samples: seq<Sample>, pid: int, n: nat)
    ensures var u := JoinedUpTo(samples, pid, n);
            && u.memory == SumMemory(samples, pid, n)
            && (!Measured(samples, pid, n) ==> u.utilization == -1 && NeverDips(samples, pid, n))
            && (!Measured(samples, pid, n) ==> SumUtilization(samples, pid, n) == 0)
            && (Measured(samples, pid, n) ==>
                  && u.utilization >= SumUtilization(samples, pid, n)
                  && (u.utilization == SumUtilization(samples, pid, n) <==> NeverDips(samples, pid, n)))
  {
    hide Largest;
    if n > 0 {
      FiguresAreSums(samples, pid, n - 1);
    }
  }

  predicate NonNegative(samples: seq<Sample>) {
    forall s :: s in samples && s.utilization.Some? ==> s.utilization.value >= 0
  }

  lemma {:induction false} LargestNonNegative(samples: seq<Sample>, key: Key)
    requires NonNegative(samples)
    ensures var r := Largest(samples, key).utilization; r.Some? ==> r.value >= 0
    decreases |samples|
  {
    if samples != [] {
      assert samples[|samples| - 1] in samples;
      assert forall s :: s in samples[..|samples| - 1] ==> s in samples;
      LargestNonNegative(samples[..|samples| - 1], key);
    }
  }

  lemma {:induction false} SumsNonNegative(samples: seq<Sample>, pid: int, n: nat)
    requires NonNegative(samples)
    ensures SumUtilization(samples, pid, n) >= 0 && NeverDips(samples, pid, n)
  {
    if n > 0 {
      SumsNonNegative(samples, pid, n - 1);
      LargestNonNegative(samples, Key(n - 1, pid));
    }
  }

  /** With readings that are not negative: the sums, and a negative figure exactly when there is no reading. */
  lemma JoinedIsSum(samples: seq<Sample>, pid: int)
    requires NonNegative(samples)
    ensures var n := DeviceBound(samples);
            && Joined(samples, pid).memory == SumMemory(samples, pid, n)
            && (Joined(samples, pid).utilization < 0 <==> !Measured(samples, pid, n))
            && (Measured(samples, pid, n) ==> Joined(samples, pid).utilization == SumUtilization(samples, pid, n))
  {
    FiguresAreSums(samples, pid, DeviceBound(samples));
    SumsNonNegative(samples, pid, DeviceBound(samples));
  }

  /** A negative reading would break it: the second device does not add to what the first one gave. */
  lemma NegativeReadingIsLost() returns (samples: seq<Sample>)
    ensures !NonNegative(samples) && Measured(samples, 1, DeviceBound(samples))
    ensures Joined(samples, 1).utilization != SumUtilization(samples, 1, DeviceBound(samples))
  {
    var first, second := Sample(0, 1, None, Some(-5)), Sample(1, 1, None, Some(3));
    samples := [first, second];
    assert samples[..1] == [first] && samples[..1][..0] == [];
    assert first in samples;
    assert DeviceBound([first]) == 1 && DeviceBound(samples) == 2;
    assert Largest([first], Key(0, 1)) == Reading(None, Some(-5));
    assert Largest([first], Key(1, 1)) == Reading(None, None);
    assert Largest(samples, Key(0, 1)) == Reading(None, Some(-5));
    assert Largest(samples, Key(1, 1)) == Reading(None, Some(3));
    assert JoinedUpTo(samples, 1, 1) == Usage(-5, 0);
    assert SumUtilization(samples, 1, 1) == -5;
  }

  // ----- the order of the readings

  /** r holds the largest readings for the key, if there are any. */
  ghost predicate IsLargest(samples: seq<Sample>, key: Key, r: Reading) {
    && (forall s :: s in samples && Counts(s, key) && s.memory.Some? ==>
          r.memory.Some? && s.memory.value <= r.memory.value)
    && (r.memory.Some? ==> exists s :: s in samples && Counts(s, key) && s.memory == r.memory)
    && (forall s :: s in samples && Counts(s, key) && s.utilization.Some? ==>
          r.utilization.Some? && s.utilization.value <= r.utilization.value)
    && (r.utilization.Some? ==> exists s :: s in samples && Counts(s, key) && s.utilization == r.utilization)
  }

  lemma {:induction false} LargestIsLargest(samples: seq<Sample>, key: Key)
    ensures IsLargest(samples, key, Largest(samples, key))
    decreases |samples|
  {
    if samples != [] {
      var rest, last := samples[..|samples| - 1], samples[|samples| - 1];
      LargestIsLargest(rest, key);
      assert forall s :: s in samples <==> s in rest || s == last;
    }
  }

  lemma OneLargest(samples: seq<Sample>, key: Key, a: Reading, b: Reading)
    requires IsLargest(samples, key, a) && IsLargest(samples, key, b)
    ensures a == b
  {}

  lemma SameSamples(samples: seq<Sample>, others: seq<Sample>)
    requires multiset(samples) == multiset(others)
    ensures forall s :: s in samples <==> s in others
  {
    assert forall s :: s in samples <==> s in multiset(samples);
    assert forall s :: s in others <==> s in multiset(others);
  }

  lemma {:induction false} JoinedSame(samples: seq<Sample>, others: seq<Sample>, pid: int, n: nat)
    requires forall s :: s in samples <==> s in others
    ensures JoinedUpTo(samples, pid, n) == JoinedUpTo(others, pid, n)
  {
    if n > 0 {
      var key := Key(n - 1, pid);
      JoinedSame(samples, others, pid, n - 1);
      LargestIsLargest(samples, key);
      LargestIsLargest(others, key);
      OneLargest(samples, key, Largest(samples, key), Largest(others, key));
    }
  }

  /** The order in which the readings come does not matter. */
  lemma OrderDoesNotMatter(samples: seq<Sample>, others: seq<Sample>, pid: int)
    requires multiset(samples) == multiset(others)
    ensures Pids(samples) == Pids(others) && Joined(samples, pid) == Joined(others, pid)
  {
    SameSamples(samples, others);
    var a, b := DeviceBound(samples), DeviceBound(others);
    var n := if a < b then b else a;
    Gap(samples, pid, a, n);
    Gap(others, pid, b, n);
    JoinedSame(samples, others, pid, n);
  }
}
