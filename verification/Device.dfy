/** The global state of `config.c` and `wol.c`: fixed-size parallel arrays with
    their live counts, and the abstract state they stand for. */
module Device {
  import opened Words
  import opened CStrings
  import opened Config
  import opened Monitoring
  import opened System

  class Appliance {
    const servers: array<Server>
    const monitors: array<Monitor>
    const schedules: array<Schedule>
    var serverCount: nat
    var scheduleCount: nat
    var autowake: bool
    var offset: Int16
    var seqNo: Half
    var ready: bool
    var log: seq<Event>
    ghost var st: State

    ghost predicate Shape() {
      && servers.Length == MAX_SERVERS && monitors.Length == MAX_SERVERS && schedules.Length == MAX_SCHEDULES
      && servers as object != monitors && servers as object != schedules && monitors as object != schedules
    }

    /** The live prefixes are the abstract lists; above them no server is active and no
        monitor holds anything. */
    ghost predicate Valid()
      reads this, servers, monitors, schedules
    {
      && Shape()
      && serverCount == |st.recs| <= MAX_SERVERS
      && scheduleCount == |st.schedules| <= MAX_SCHEDULES
      && (forall i :: 0 <= i < serverCount ==> servers[i] == st.recs[i].server)
      && (forall i :: 0 <= i < serverCount ==> monitors[i] == st.recs[i].mon)
      && (forall i :: serverCount <= i < MAX_SERVERS ==> !servers[i].active && servers[i].name[NAME_LEN - 1] == NUL)
      && (forall i :: serverCount <= i < MAX_SERVERS ==> monitors[i] == ZERO_MONITOR)
      && (forall i :: 0 <= i < scheduleCount ==> schedules[i] == st.schedules[i])
      && autowake == st.autowake && offset == st.offset
      && seqNo == st.seqNo && ready == st.ready && log == st.log
    }

    /** What slot `i`'s code sees. */
    function Here(i: nat): Cell
      requires i < monitors.Length
      reads this, monitors
    {
      Cell(monitors[i], seqNo, log)
    }

    /** Power-on: empty tables, the ICMP socket opened or not. */
    constructor (socket: bool)
      ensures Valid() && fresh(servers) && fresh(monitors) && fresh(schedules)
      ensures st == State([], [], 0, 0, socket, false, 0, [])
    {
      servers := new Server[MAX_SERVERS](_ => ZERO_SERVER);
      monitors := new Monitor[MAX_SERVERS](_ => ZERO_MONITOR);
      schedules := new Schedule[MAX_SCHEDULES](_ => ZERO_SCHEDULE);
      serverCount, scheduleCount, autowake, offset := 0, 0, false, 0;
      seqNo, ready, log := 0, socket, [];
      st := State([], [], 0, 0, socket, false, 0, []);
    }
  }
}
