/** The patient's appointment list (public/js/view-appointments.js): the
    reschedule and cancel buttons are shown only on scheduled appointments. */
module AppointmentView {
  import opened Appointments

  /** An appointment may be rescheduled or canceled from the list only while it is scheduled. */
  predicate CanModify(a: Appointment): (ok: bool)
    ensures ok <==> a.status != Completed && a.status != Canceled
  {
    a.status == Scheduled
  }

  /** On the patient's own appointments the buttons are shown exactly when
      the patient cancel and the guarded reschedule accept the request. The
      reschedule handler registered first, which is the one that runs, also
      accepts completed and canceled appointments. */
  lemma OfferedExactlyWhenAccepted(clinic: Clinic, id: nat, patient: nat)
    requires id in clinic.appointments && clinic.appointments[id].patient == patient
    ensures CanModify(clinic.appointments[id]) <==> clinic.PatientMayChange(id, patient)
  {
  }
}
