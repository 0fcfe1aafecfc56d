/**
 * The rows of the three database tables the core reads and writes
 * (src/integrations/supabase/types.ts: appointments, availabilities, services),
 * restricted to the columns the core uses. Instants are whole minutes on one
 * local clock; the stored "HH:MM" bounds of an opening window stay text.
 */
module Tables {
  datatype AppointmentRow = AppointmentRow(
    id: int,
    clientId: string,
    establishmentId: int,
    serviceId: int,
    startTime: int,
    endTime: int,
    status: string)

  datatype AvailabilityRow = AvailabilityRow(
    id: int,
    establishmentId: int,
    dayOfWeek: int,
    startTime: string,
    endTime: string)

  datatype ServiceRow = ServiceRow(
    id: int,
    establishmentId: int,
    durationMinutes: int)
}
