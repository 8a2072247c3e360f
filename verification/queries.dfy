/**
 The read-only projections: a pilgrim's complaints by contact
 (`handle_get_pilgrim_status`), the official dashboard
 (`handle_get_official_dashboard`) and a worker's tasks
 (`handle_get_worker_tasks`). None of them changes the store.
 */
module Queries {
  import opened Php
  import opened Seqs
  import opened Schema

  /** A complaint as the pilgrim status view shows it. */
  datatype StatusView = StatusView(id: string, location: string, description: string, status: Status, assignedWorker: Option<string>)

  /** A complaint as the official dashboard shows it. */
  datatype DashboardRow = DashboardRow(id: string, location: string, description: string, status: Status, contact: Option<string>, assignedWorker: Option<string>)

  /** A complaint as a worker's task list shows it. */
  datatype TaskView = TaskView(id: string, location: string, description: string, status: Status)

  /** A worker as the dashboard's roster shows it. */
  datatype WorkerRow = WorkerRow(id: string, name: string)

  datatype Dashboard = Dashboard(complaints: seq<DashboardRow>, workers: seq<WorkerRow>)

  function AsStatusView(c: Complaint): StatusView
  {
    StatusView(c.id, c.location, c.description, c.status, c.worker)
  }

  function AsDashboardRow(c: Complaint): DashboardRow
  {
    DashboardRow(c.id, c.location, c.description, c.status, c.contact, c.worker)
  }

  function AsTaskView(c: Complaint): TaskView
  {
    TaskView(c.id, c.location, c.description, c.status)
  }

  function AsWorkerRow(u: User): WorkerRow
  {
    WorkerRow(u.id, u.name)
  }

  /** `WHERE contact = ?`: a null contact never matches. */
  function ContactIs(contact: string): Complaint -> bool
  {
    (c: Complaint) => c.contact == Some(contact)
  }

  /** `WHERE assigned_worker_id = ?`: an unassigned complaint never matches. */
  function AssignedTo(worker: string): Complaint -> bool
  {
    (c: Complaint) => c.worker == Some(worker)
  }

  /** `WHERE status IN ('Pending', 'Assigned')`. */
  predicate IsOpen(c: Complaint)
  {
    c.status == Pending || c.status == Assigned
  }

  /** `handle_get_pilgrim_status`: the complaints filed with this contact, newest first. */
  function PilgrimStatus(s: Store, contact: Option<string>): (r: Reply<seq<StatusView>>)
    ensures var c := contact.Coalesce("");
      && (Empty(c) <==> r.Error?)
      && (r.Error? ==> r.failure == ValidationError)
      && (r.Success? ==>
            && |r.value| == Count(s.complaints, ContactIs(c))
            && (forall i :: 0 <= i < |s.complaints| && s.complaints[i].contact == Some(c) ==> AsStatusView(s.complaints[i]) in r.value)
            && (forall v :: v in r.value ==> exists i :: 0 <= i < |s.complaints| && s.complaints[i].contact == Some(c) && v == AsStatusView(s.complaints[i])))
  {
    var c := contact.Coalesce("");
    if Empty(c) then Error(ValidationError)
    else
      var rows := Select(s.complaints, ContactIs(c), AsStatusView);
      ReverseMembers(rows);
      Success(Reverse(rows))
  }

  /** `handle_get_official_dashboard`: the open complaints oldest first, and the roster of workers. */
  function OfficialDashboard(s: Store): (r: Dashboard)
    ensures |r.complaints| == Count(s.complaints, IsOpen)
    ensures forall i :: 0 <= i < |s.complaints| && IsOpen(s.complaints[i]) ==> AsDashboardRow(s.complaints[i]) in r.complaints
    ensures forall v :: v in r.complaints ==> exists i :: 0 <= i < |s.complaints| && IsOpen(s.complaints[i]) && v == AsDashboardRow(s.complaints[i])
    ensures forall v :: v in r.complaints ==> v.status != Completed
    ensures |r.workers| == Count(s.users, IsWorker)
    ensures forall i :: 0 <= i < |s.users| && s.users[i].role == Worker ==> AsWorkerRow(s.users[i]) in r.workers
    ensures forall w :: w in r.workers ==> exists i :: 0 <= i < |s.users| && s.users[i].role == Worker && w == AsWorkerRow(s.users[i])
  {
    Dashboard(Select(s.complaints, IsOpen, AsDashboardRow), Select(s.users, IsWorker, AsWorkerRow))
  }

  /** `handle_get_worker_tasks`: the complaints assigned to this worker, newest first. */
  function WorkerTasks(s: Store, workerId: Option<string>): (r: Reply<seq<TaskView>>)
    ensures var w := workerId.Coalesce("");
      && (Empty(w) <==> r.Error?)
      && (r.Error? ==> r.failure == ValidationError)
      && (r.Success? ==>
            && |r.value| == Count(s.complaints, AssignedTo(w))
            && (forall i :: 0 <= i < |s.complaints| && s.complaints[i].worker == Some(w) ==> AsTaskView(s.complaints[i]) in r.value)
            && (forall v :: v in r.value ==> exists i :: 0 <= i < |s.complaints| && s.complaints[i].worker == Some(w) && v == AsTaskView(s.complaints[i])))
  {
    var w := workerId.Coalesce("");
    if Empty(w) then Error(ValidationError)
    else
      var rows := Select(s.complaints, AssignedTo(w), AsTaskView);
      ReverseMembers(rows);
      Success(Reverse(rows))
  }

  /**
   Dashboard order is oldest first: splitting the table into older and newer
   rows, every open complaint of the older part is listed before every open
   complaint of the newer part.
   */
  lemma DashboardOldestFirst(users: seq<User>, older: seq<Complaint>, newer: seq<Complaint>)
    ensures OfficialDashboard(Store(users, older + newer)).complaints
         == OfficialDashboard(Store(users, older)).complaints + OfficialDashboard(Store(users, newer)).complaints
  {
    SelectAppend(older, newer, IsOpen, AsDashboardRow);
  }

  /** Pilgrim status order is newest first: complaints of the newer part come before those of the older part. */
  lemma PilgrimStatusNewestFirst(users: seq<User>, older: seq<Complaint>, newer: seq<Complaint>, contact: string)
    requires !Empty(contact)
    ensures PilgrimStatus(Store(users, older + newer), Some(contact)).value
         == PilgrimStatus(Store(users, newer), Some(contact)).value + PilgrimStatus(Store(users, older), Some(contact)).value
  {
    SelectAppend(older, newer, ContactIs(contact), AsStatusView);
    ReverseAppend(Select(older, ContactIs(contact), AsStatusView), Select(newer, ContactIs(contact), AsStatusView));
  }

  /** Worker tasks are newest first, in the same sense. */
  lemma WorkerTasksNewestFirst(users: seq<User>, older: seq<Complaint>, newer: seq<Complaint>, worker: string)
    requires !Empty(worker)
    ensures WorkerTasks(Store(users, older + newer), Some(worker)).value
         == WorkerTasks(Store(users, newer), Some(worker)).value + WorkerTasks(Store(users, older), Some(worker)).value
  {
    SelectAppend(older, newer, AssignedTo(worker), AsTaskView);
    ReverseAppend(Select(older, AssignedTo(worker), AsTaskView), Select(newer, AssignedTo(worker), AsTaskView));
  }
}
