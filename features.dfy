/** The feature record of src/deft/tracker.py: a named feature with a status and a priority.
    Its _record_status and _record_priority set the field; the tracker that owns the record
    then marks it dirty (see Tracker). */
module Features {
  class Feature {
    const name: string
    var status: string
    var priority: int

    constructor(name: string, status: string, priority: int)
      ensures this.name == name && this.status == status && this.priority == priority
    {
      this.name := name;
      this.status := status;
      this.priority := priority;
    }

    method RecordStatus(newStatus: string)
      modifies this`status
      ensures status == newStatus
    {
      status := newStatus;
    }

    method RecordPriority(newPriority: int)
      modifies this`priority
      ensures priority == newPriority
    {
      priority := newPriority;
    }
  }
}
