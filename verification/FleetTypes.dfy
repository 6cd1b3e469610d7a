/** Row states shared by the addressing plane and the orchestrator
    (internal/domain/fleet_replica.go, internal/domain/image_workload.go). */
module FleetTypes {
  datatype ReplicaState = Scheduled | Booting | Resident | Paused | Draining | Dead

  datatype WorkloadState = WorkloadBooting | WorkloadRunning | WorkloadExited | WorkloadFailed
}
