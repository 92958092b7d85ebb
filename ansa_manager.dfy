/**
 * The trap-host table of manager/ansa_manager.py: the status and
 * activity classifiers used by the dashboard and the activity simulation
 * that updates the table in place. The per-host `random.randint(-5, 10)`
 * draw is an input; the alert branch (a float draw and a log line) is
 * console output and is not modelled.
 */
module AnsaManager {

  // ANSI colour codes of manager/tui_manager.py.
  const Red: string := "\U{1b}[91m"
  const Green: string := "\U{1b}[92m"
  const Yellow: string := "\U{1b}[93m"
  const Blue: string := "\U{1b}[94m"
  const Reset: string := "\U{1b}[0m"

  /** One simulated trap host. */
  datatype Host = Host(name: string, service: string, status: string, activity: int)

  /** The initial table, keyed by IP address: three ONLINE hosts with no activity. */
  const InitialHosts: map<string, Host> := map[
    "192.168.1.10" := Host("Web-Trap-01", "HTTP/80, SSH/22", "ONLINE", 0),
    "192.168.1.11" := Host("File-Trap-02", "SMB/445, FTP/21", "ONLINE", 0),
    "192.168.1.12" := Host("DB-Trap-03", "MySQL/3306", "ONLINE", 0)]

  /** `get_status_color`: green exactly for ONLINE, yellow exactly for OFFLINE, reset for anything else. */
  function StatusColor(status: string): (c: string)
    ensures c == Green <==> status == "ONLINE"
    ensures c == Yellow <==> status == "OFFLINE"
    ensures c == Reset <==> status != "ONLINE" && status != "OFFLINE"
  {
    if status == "ONLINE" then Green
    else if status == "OFFLINE" then Yellow
    else Reset
  }

  /** `get_activity_level`: a coloured label chosen by the thresholds 90, 50 and 10. */
  function ActivityLevel(activity: int): (s: string)
    ensures s == Red + "CRITICAL" + Reset <==> activity > 90
    ensures s == Yellow + "HIGH" + Reset <==> 50 < activity <= 90
    ensures s == Blue + "MEDIUM" + Reset <==> 10 < activity <= 50
    ensures s == Green + "LOW" + Reset <==> activity <= 10
  {
    if activity > 90 then Red + "CRITICAL" + Reset
    else if activity > 50 then Yellow + "HIGH" + Reset
    else if activity > 10 then Blue + "MEDIUM" + Reset
    else Green + "LOW" + Reset
  }

  /** The rank of a label: LOW 0, MEDIUM 1, HIGH 2, CRITICAL 3. */
  function Severity(badge: string): nat
  {
    if badge == Red + "CRITICAL" + Reset then 3
    else if badge == Yellow + "HIGH" + Reset then 2
    else if badge == Blue + "MEDIUM" + Reset then 1
    else 0
  }

  /** More activity never gives a lower level. */
  lemma ActivityLevelMonotone(a: int, b: int)
    requires a <= b
    ensures Severity(ActivityLevel(a)) <= Severity(ActivityLevel(b))
  {
  }

  /** `max(0, min(100, v))`. */
  function Clamp(v: int): (c: int)
    ensures 0 <= c <= 100
    ensures 0 <= v <= 100 ==> c == v
    ensures v < 0 ==> c == 0
    ensures v > 100 ==> c == 100
  {
    if v < 0 then 0 else if v > 100 then 100 else v
  }

  /** What one iteration of `simulate_activity` does to one host; only the activity changes. */
  function Step(host: Host, change: int): (h: Host)
    ensures h.name == host.name && h.service == host.service && h.status == host.status
    ensures 0 <= h.activity <= 100
    ensures host.status == "ONLINE" ==> h.activity == Clamp(host.activity + change)
    ensures host.status != "ONLINE" ==> h.activity == 0
  {
    if host.status == "ONLINE" then host.(activity := Clamp(host.activity + change))
    else host.(activity := 0)
  }

  /** Every ONLINE host has its drawn change, inside the range `random.randint(-5, 10)` draws from. */
  predicate ChangesFit(hosts: map<string, Host>, changes: map<string, int>)
  {
    forall ip :: ip in hosts && hosts[ip].status == "ONLINE" ==> ip in changes && -5 <= changes[ip] <= 10
  }

  /** The change drawn for `ip`; hosts that are not ONLINE draw none. */
  function ChangeFor(changes: map<string, int>, ip: string): int
  {
    if ip in changes then changes[ip] else 0
  }

  /** The table after one round of `simulate_activity`. */
  function Simulated(hosts: map<string, Host>, changes: map<string, int>): map<string, Host>
  {
    map ip | ip in hosts :: Step(hosts[ip], ChangeFor(changes, ip))
  }

  /**
   * One round of simulation keeps the set of hosts and each host's name,
   * service and status; it leaves every activity in [0, 100], resets every
   * host that is not ONLINE to 0 and moves an ONLINE host that was in range
   * by at most -5 or +10.
   */
  lemma SimulatedProperties(hosts: map<string, Host>, changes: map<string, int>)
    requires ChangesFit(hosts, changes)
    ensures Simulated(hosts, changes).Keys == hosts.Keys
    ensures forall ip :: ip in hosts ==>
      var h := Simulated(hosts, changes)[ip];
      && h.name == hosts[ip].name && h.service == hosts[ip].service && h.status == hosts[ip].status
      && 0 <= h.activity <= 100
      && (hosts[ip].status != "ONLINE" ==> h.activity == 0)
      && (hosts[ip].status == "ONLINE" && 0 <= hosts[ip].activity <= 100 ==>
            hosts[ip].activity - 5 <= h.activity <= hosts[ip].activity + 10)
  {
  }

  /** The module-level `HOSTS` table, updated in place. */
  class TrapHosts {
    var hosts: map<string, Host>

    constructor()
      ensures hosts == InitialHosts
    {
      hosts := InitialHosts;
    }

    /** `simulate_activity`: every host is visited once, in any order, and only its activity is written. */
    method SimulateActivity(changes: map<string, int>)
      requires ChangesFit(hosts, changes)
      modifies this
      ensures hosts == Simulated(old(hosts), changes)
    {
      ghost var start := hosts;
      var pending := hosts.Keys;
      while pending != {}
        invariant pending <= start.Keys && hosts.Keys == start.Keys
        invariant forall ip :: ip in start ==>
          hosts[ip] == if ip in pending then start[ip] else Step(start[ip], ChangeFor(changes, ip))
        decreases pending
      {
        var ip :| ip in pending;
        var host := hosts[ip];
        if host.status == "ONLINE" {
          var change := changes[ip];
          hosts := hosts[ip := host.(activity := Clamp(host.activity + change))];
        } else {
          hosts := hosts[ip := host.(activity := 0)];
        }
        pending := pending - {ip};
      }
    }
  }
}
